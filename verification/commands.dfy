/** `Command::from_str` and the two synonym tables it uses: one line of
    input becomes one command, or the message of the first error found. */
module Commands {
  import opened Results
  import opened Decimal
  import opened Strings
  import opened Tasks

  datatype Format = Json | Yaml | Plaintext

  datatype TaskField = Description | Status

  datatype Command =
    | Add(val: string)
    | Remove(id: u32)
    | Update(id: u32, newVal: string, field: TaskField)
    | Export(format: Format, outFile: string)
    | Quit

  const FormatError := "Invalid export format."
  const FieldError := "Invalid field argument"
  const UnknownCommandError := "Invalid argument."

  // The errors for a known command word followed by too few tokens.
  const AddArgumentsError := "Invalid arguments for add."
  const RemoveArgumentsError := "Invalid arguments for remove."
  const UpdateArgumentsError := "Invalid arguments for update."
  const ExportArgumentsError := "Invalid arguments for export."

  /** `Format::from_str`: two spellings per format, matched exactly. */
  function ParseFormat(s: string): (r: Result<Format>)
    ensures r == Success(Json) <==> s == "j" || s == "json"
    ensures r == Success(Yaml) <==> s == "y" || s == "yaml"
    ensures r == Success(Plaintext) <==> s == "p" || s == "plaintext"
    ensures r.Failure? ==> r.error == FormatError
  {
    if s == "j" || s == "json" then Success(Json)
    else if s == "y" || s == "yaml" then Success(Yaml)
    else if s == "p" || s == "plaintext" then Success(Plaintext)
    else Failure(FormatError)
  }

  /** `TaskField::from_str`: two spellings per field, matched exactly. */
  function ParseField(s: string): (r: Result<TaskField>)
    ensures r == Success(Description) <==> s == "description" || s == "d"
    ensures r == Success(Status) <==> s == "status" || s == "s"
    ensures r.Failure? ==> r.error == FieldError
  {
    if s == "description" || s == "d" then Success(Description)
    else if s == "status" || s == "s" then Success(Status)
    else Failure(FieldError)
  }

  /** `Command::from_str`: split the line at every single space; the first
      piece picks the command (case-sensitively), each command needs a
      minimum number of pieces (add 2, remove 2, update 4, export 3), and
      each argument is exactly one piece. Only the field selector is
      lowercased. */
  function ParseCommand(line: string): (r: Result<Command>)
    ensures r.Success? && r.value.Add? ==> ' ' !in r.value.val
    ensures r.Success? && r.value.Update? ==> ' ' !in r.value.newVal
    ensures r.Success? && r.value.Export? ==> ' ' !in r.value.outFile
    ensures r.Success? ==> IsCommandWord(Split(line, ' ')[0])
  {
    var parts := Split(line, ' ');
    var word := parts[0];
    if IsAdd(word) then
      if |parts| < 2 then Failure(AddArgumentsError)
      else Success(Add(parts[1]))
    else if IsRemove(word) then
      if |parts| < 2 then Failure(RemoveArgumentsError)
      else
        match ParseU32(parts[1])
        case Failure(e) => Failure(e)
        case Success(id) => Success(Remove(id))
    else if IsUpdate(word) then
      if |parts| < 4 then Failure(UpdateArgumentsError)
      else
        match ParseU32(parts[1])
        case Failure(e) => Failure(e)
        case Success(id) =>
          match ParseField(ToLower(parts[2]))
          case Failure(e) => Failure(e)
          case Success(field) => Success(Update(id, parts[3], field))
    else if IsQuit(word) then Success(Quit)
    else if IsExport(word) then
      if |parts| < 3 then Failure(ExportArgumentsError)
      else
        match ParseFormat(parts[1])
        case Failure(e) => Failure(e)
        case Success(format) => Success(Export(format, parts[2]))
    else Failure(UnknownCommandError)
  }

  // The long and the one-letter spelling of each command word.
  predicate IsAdd(w: string) { w == "a" || w == "add" }
  predicate IsRemove(w: string) { w == "r" || w == "remove" }
  predicate IsUpdate(w: string) { w == "u" || w == "update" }
  predicate IsQuit(w: string) { w == "q" || w == "quit" }
  predicate IsExport(w: string) { w == "e" || w == "export" }

  predicate IsCommandWord(w: string)
  {
    IsAdd(w) || IsRemove(w) || IsUpdate(w) || IsQuit(w) || IsExport(w)
  }

  /** The number of pieces a command word needs (`parts.len() < n` is an
      error); quit and unknown words need only themselves. */
  function MinPieces(w: string): (n: nat)
    ensures n >= 1
    ensures IsCommandWord(w) && !IsQuit(w) ==> n >= 2
  {
    if IsAdd(w) || IsRemove(w) then 2
    else if IsUpdate(w) then 4
    else if IsExport(w) then 3
    else 1
  }

  /** The too-few-pieces error of each command word. */
  function ArgumentsError(w: string): string
  {
    if IsAdd(w) then AddArgumentsError
    else if IsRemove(w) then RemoveArgumentsError
    else if IsUpdate(w) then UpdateArgumentsError
    else ExportArgumentsError
  }

  /** `rest` ends a token: the line stops or a space follows. */
  predicate EndsToken(rest: string) { rest == [] || rest[0] == ' ' }

  /** The pieces of a word followed by `rest` that ends the token. */
  lemma {:induction false} SplitLead(w: string, rest: string)
    requires ' ' !in w && EndsToken(rest)
    ensures Split(w + rest, ' ')[0] == w
    ensures rest == [] ==> Split(w + rest, ' ') == [w]
    ensures rest != [] ==> Split(w + rest, ' ') == [w] + Split(rest[1..], ' ')
  {
    if rest == [] {
      assert w + rest == w;
      SplitWord(w, ' ');
    } else {
      assert w + rest == w + [' '] + rest[1..];
      SplitFirst(w, rest[1..], ' ');
    }
  }

  /** A command word alone on the line: the four commands that take
      arguments report too few, quit succeeds, anything else is unknown. */
  lemma BareWord(w: string)
    requires ' ' !in w
    ensures IsAdd(w) ==> ParseCommand(w) == Failure("Invalid arguments for add.")
    ensures IsRemove(w) ==> ParseCommand(w) == Failure("Invalid arguments for remove.")
    ensures IsUpdate(w) ==> ParseCommand(w) == Failure("Invalid arguments for update.")
    ensures IsExport(w) ==> ParseCommand(w) == Failure("Invalid arguments for export.")
    ensures IsQuit(w) ==> ParseCommand(w) == Success(Quit)
    ensures !IsCommandWord(w) ==> ParseCommand(w) == Failure(UnknownCommandError)
  {
    SplitWord(w, ' ');
  }

  /** The arity rule for all lines: a command word that takes arguments
      fails with its own "Invalid arguments for ..." message exactly when
      the line has fewer pieces than it needs. */
  lemma TooFewPieces(line: string)
    ensures var parts := Split(line, ' ');
            IsCommandWord(parts[0]) && !IsQuit(parts[0]) ==>
              (ParseCommand(line) == Failure(ArgumentsError(parts[0])) <==> |parts| < MinPieces(parts[0]))
  {
    var parts := Split(line, ' ');
    var w := parts[0];
    if IsCommandWord(w) && !IsQuit(w) && |parts| >= MinPieces(w) && ParseCommand(line).Failure? {
      var e := ParseCommand(line).error;
      assert e in {EmptyMessage, InvalidDigitMessage, OverflowMessage, FieldError, FormatError};
      // The messages differ in their first letter or in the ninth.
      assert ArgumentsError(w)[0] == 'I' && ArgumentsError(w)[8] == 'a';
      assert EmptyMessage[0] != 'I' && InvalidDigitMessage[0] != 'I' && OverflowMessage[0] != 'I';
      assert FieldError[8] != 'a' && FormatError[8] != 'a';
    }
  }

  /** An unknown first token is reported as such, whatever follows. */
  lemma UnknownWord(w: string, rest: string)
    requires ' ' !in w && EndsToken(rest) && !IsCommandWord(w)
    ensures ParseCommand(w + rest) == Failure(UnknownCommandError)
  {
    SplitLead(w, rest);
  }

  /** Quit ignores whatever follows its word. */
  lemma QuitIgnoresRest(w: string, rest: string)
    requires IsQuit(w) && EndsToken(rest)
    ensures ParseCommand(w + rest) == Success(Quit)
  {
    SplitLead(w, rest);
  }

  /** Add keeps only the first word after the command: "add Buy groceries"
      adds "Buy". */
  lemma AddTakesOneWord(w: string, val: string, rest: string)
    requires IsAdd(w) && ' ' !in val && EndsToken(rest)
    ensures ParseCommand(w + " " + val + rest) == Success(Add(val))
  {
    SplitLead(val, rest);
    assert w + " " + val + rest == w + [' '] + (val + rest);
    SplitFirst(w, val + rest, ' ');
  }

  /** Remove reads its one argument as a u32 and passes its error on. */
  lemma RemoveReadsId(w: string, token: string, rest: string)
    requires IsRemove(w) && ' ' !in token && EndsToken(rest)
    ensures ParseCommand(w + " " + token + rest)
            == match ParseU32(token)
               case Success(id) => Success(Remove(id))
               case Failure(e) => Failure(e)
  {
    SplitLead(token, rest);
    assert w + " " + token + rest == w + [' '] + (token + rest);
    SplitFirst(w, token + rest, ' ');
  }

  /** Export needs an output-file token: a format alone is too few. */
  lemma ExportNeedsOutputFile(w: string, format: string)
    requires IsExport(w) && ' ' !in format
    ensures ParseCommand(w + " " + format) == Failure("Invalid arguments for export.")
  {
    SplitWord(format, ' ');
    assert w + " " + format == w + [' '] + format;
    SplitFirst(w, format, ' ');
  }

  /** Export with a format and a file: the format word is matched exactly
      (no lowercasing) and the file is the next single token. */
  lemma ExportReadsFormatAndFile(w: string, format: string, file: string, rest: string)
    requires IsExport(w) && ' ' !in format && ' ' !in file && EndsToken(rest)
    ensures ParseCommand(w + " " + format + " " + file + rest)
            == match ParseFormat(format)
               case Success(f) => Success(Export(f, file))
               case Failure(e) => Failure(e)
  {
    var line := w + " " + format + " " + file + rest;
    var parts := Split(line, ' ');
    Tokens3(w, format, file, rest);
    assert |parts| >= 3 && parts[0] == w && parts[1] == format && parts[2] == file;
  }

  /** A line of exactly three words splits into those words. */
  lemma ThreeWords(a: string, b: string, c: string)
    requires ' ' !in a && ' ' !in b && ' ' !in c
    ensures Split(a + " " + b + " " + c, ' ') == [a, b, c]
  {
    SplitAppend(a, b, ' ');
    SplitWord(a, ' ');
    SplitWord(b, ' ');
    SplitAppend(a + " " + b, c, ' ');
    SplitWord(c, ' ');
  }

  /** The first three pieces of a line of three words. */
  lemma Tokens3(a: string, b: string, c: string, rest: string)
    requires ' ' !in a && ' ' !in b && ' ' !in c && EndsToken(rest)
    ensures var parts := Split(a + " " + b + " " + c + rest, ' ');
            |parts| >= 3 && parts[0] == a && parts[1] == b && parts[2] == c
  {
    var ab := a + " " + b;
    SplitAppend(a, b, ' ');
    SplitWord(a, ' ');
    SplitWord(b, ' ');
    SplitAppend(ab, c + rest, ' ');
    SplitLead(c, rest);
    assert ab + " " + c + rest == ab + [' '] + (c + rest);
  }


  /** Update reads a u32 id, a field selector in any letter case, and one
      word of new value; the id is checked before the field. */
  lemma UpdateReadsThreeTokens(w: string, token: string, field: string, val: string, rest: string)
    requires IsUpdate(w) && ' ' !in token && ' ' !in field && ' ' !in val && EndsToken(rest)
    ensures ParseCommand(w + " " + token + " " + field + " " + val + rest)
            == match ParseU32(token)
               case Failure(e) => Failure(e)
               case Success(id) =>
                 match ParseField(ToLower(field))
                 case Failure(e) => Failure(e)
                 case Success(f) => Success(Update(id, val, f))
  {
    var line := w + " " + token + " " + field + " " + val + rest;
    var parts := Split(line, ' ');
    Tokens4(w, token, field, val, rest);
    assert |parts| >= 4 && parts[0] == w && parts[1] == token && parts[2] == field && parts[3] == val;
  }

  /** The first four pieces of a line of four words. */
  lemma Tokens4(a: string, b: string, c: string, d: string, rest: string)
    requires ' ' !in a && ' ' !in b && ' ' !in c && ' ' !in d && EndsToken(rest)
    ensures var parts := Split(a + " " + b + " " + c + " " + d + rest, ' ');
            |parts| >= 4 && parts[0] == a && parts[1] == b && parts[2] == c && parts[3] == d
  {
    var abc := a + " " + b + " " + c;
    ThreeWords(a, b, c);
    SplitAppend(abc, d + rest, ' ');
    SplitLead(d, rest);
    assert abc + " " + d + rest == abc + [' '] + (d + rest);
  }



  /** Update with only an id and a field is too few tokens. */
  lemma UpdateNeedsValue(w: string, token: string, field: string)
    requires IsUpdate(w) && ' ' !in token && ' ' !in field
    ensures ParseCommand(w + " " + token + " " + field) == Failure("Invalid arguments for update.")
  {
    SplitWord(field, ' ');
    SplitFirst(token, field, ' ');
    assert w + " " + token + " " + field == w + [' '] + (token + [' '] + field);
    SplitFirst(w, token + [' '] + field, ' ');
  }

  /** A status value reaches the status table as one word, so the two
      spellings with a space ("not started", "in progress") can never be
      chosen through a command. */
  lemma StatusValueIsOneWord(line: string)
    requires ParseCommand(line).Success? && ParseCommand(line).value.Update?
    ensures ParseStatus(ParseCommand(line).value.newVal).Success? ==>
              ParseCommand(line).value.newVal in {"ns", "ip", "completed", "c"}
  {
    var v := ParseCommand(line).value.newVal;
    assert ' ' !in v;
    assert "not started"[3] == ' ' && "in progress"[2] == ' ';
  }

  /** Near misses are rejected by both tables: the empty string, other
      words, and capitalised spellings. */
  lemma SelectorRejects()
    ensures ParseFormat("invalid") == Failure(FormatError)
    ensures ParseFormat("") == Failure(FormatError)
    ensures ParseFormat("txt") == Failure(FormatError)
    ensures ParseFormat("JSON") == Failure(FormatError)
    ensures ParseFormat("name") == Failure(FormatError)
    ensures ParseFormat("Status") == Failure(FormatError)
    ensures ParseField("invalid") == Failure(FieldError)
    ensures ParseField("") == Failure(FieldError)
    ensures ParseField("txt") == Failure(FieldError)
    ensures ParseField("JSON") == Failure(FieldError)
    ensures ParseField("name") == Failure(FieldError)
    ensures ParseField("Status") == Failure(FieldError)
  {
  }

  /** Two words that are equal once lowercased. */
  predicate SameUpToCase(a: string, b: string) { ToLower(a) == ToLower(b) }

  /** The field selector, lowercased before the table, picks a field
      exactly when it is one of that field's spellings in any letter case. */
  lemma FieldAnyCase(f: string)
    ensures ParseField(ToLower(f)) == Success(Description)
            <==> SameUpToCase(f, "description") || SameUpToCase(f, "d")
    ensures ParseField(ToLower(f)) == Success(Status)
            <==> SameUpToCase(f, "status") || SameUpToCase(f, "s")
  {
    ToLowerKeepsLower("description");
    ToLowerKeepsLower("d");
    ToLowerKeepsLower("status");
    ToLowerKeepsLower("s");
  }

  /** The field selectors of the unit tests, after lowercasing. */
  lemma FieldSpellings()
    ensures ParseField(ToLower("description")) == Success(Description)
    ensures ParseField(ToLower("d")) == Success(Description)
    ensures ParseField(ToLower("status")) == Success(Status)
    ensures ParseField(ToLower("s")) == Success(Status)
    ensures ParseField(ToLower("STATUS")) == Success(Status)
    ensures ParseField(ToLower("invalid")) == Failure(FieldError)
  {
    assert ToLower("description") == "description";
    assert ToLower("d") == "d";
    assert ToLower("status") == "status";
    assert ToLower("s") == "s";
    assert ToLower("STATUS") == "status";
    assert ToLower("invalid") == "invalid";
  }

  // The command-parsing unit tests, one lemma each. Each input line, quoted
  // in the lemma's comment, is written as its words and the spaces between
  // them, the form the general lemmas above are stated in.

  /** "add Buy groceries" and "a Buy groceries". */
  lemma AddExample()
    ensures ParseCommand("add" + " " + "Buy" + " groceries") == Success(Add("Buy"))
    ensures ParseCommand("a" + " " + "Buy" + " groceries") == Success(Add("Buy"))
  {
    AddTakesOneWord("add", "Buy", " groceries");
    AddTakesOneWord("a", "Buy", " groceries");
  }

  /** "remove 5" and "r 10". */
  lemma RemoveExample()
    ensures ParseCommand("remove" + " " + "5") == Success(Remove(5))
    ensures ParseCommand("r" + " " + "10") == Success(Remove(10))
  {
    assert ParseU32("5") == Success(5) && ParseU32("10") == Success(10);
    RemoveReadsId("remove", "5", "");
    assert "remove" + " " + "5" + "" == "remove" + " " + "5";
    RemoveReadsId("r", "10", "");
    assert "r" + " " + "10" + "" == "r" + " " + "10";
  }

  /** "remove abc". */
  lemma RemoveInvalidIdExample()
    ensures ParseCommand("remove" + " " + "abc") == Failure(InvalidDigitMessage)
  {
    RemoveReadsId("remove", "abc", "");
    assert "remove" + " " + "abc" + "" == "remove" + " " + "abc";
  }

  /** "add" and "remove" alone. */
  lemma TooFewArgumentsExample()
    ensures ParseCommand("add") == Failure("Invalid arguments for add.")
    ensures ParseCommand("remove") == Failure("Invalid arguments for remove.")
  {
    BareWord("add");
    BareWord("remove");
  }

  /** "quit" and "q". */
  lemma QuitExample()
    ensures ParseCommand("quit") == Success(Quit)
    ensures ParseCommand("q") == Success(Quit)
  {
    BareWord("quit");
    BareWord("q");
  }

  /** "invalid command", and "ADD x": a known word in capitals is unknown. */
  lemma InvalidCommandExample()
    ensures ParseCommand("invalid" + " command") == Failure("Invalid argument.")
    ensures ParseCommand("ADD" + " x") == Failure("Invalid argument.")
  {
    UnknownWord("invalid", " command");
    UnknownWord("ADD", " x");
  }

  /** "update 1 status completed" and "u 2 s ip". */
  lemma UpdateStatusExample()
    ensures ParseCommand("update" + " " + "1" + " " + "status" + " " + "completed" + "")
            == Success(Update(1, "completed", Status))
    ensures ParseCommand("u" + " " + "2" + " " + "s" + " " + "ip" + "")
            == Success(Update(2, "ip", Status))
  {
    FieldSpellings();
    assert ParseU32("1") == Success(1) && ParseU32("2") == Success(2);
    UpdateReadsThreeTokens("update", "1", "status", "completed", "");
    UpdateReadsThreeTokens("u", "2", "s", "ip", "");
  }

  /** "update 1 description New description" and "u 2 d Short desc": only
      the first word of the new description is kept. */
  lemma UpdateDescriptionExample()
    ensures ParseCommand("update" + " " + "1" + " " + "description" + " " + "New" + " description")
            == Success(Update(1, "New", Description))
    ensures ParseCommand("u" + " " + "2" + " " + "d" + " " + "Short" + " desc")
            == Success(Update(2, "Short", Description))
  {
    FieldSpellings();
    assert ParseU32("1") == Success(1) && ParseU32("2") == Success(2);
    UpdateReadsThreeTokens("update", "1", "description", "New", " description");
    UpdateReadsThreeTokens("u", "2", "d", "Short", " desc");
  }

  /** "update 1 status" (no value), and "update 1" (no field either). */
  lemma UpdateTooFewExample()
    ensures ParseCommand("update" + " " + "1" + " " + "status") == Failure("Invalid arguments for update.")
    ensures ParseCommand("update" + " " + "1") == Failure("Invalid arguments for update.")
  {
    UpdateNeedsValue("update", "1", "status");
    SplitWord("1", ' ');
    SplitFirst("update", "1", ' ');
    assert "update" + " " + "1" == "update" + [' '] + "1";
  }

  /** "update 1 invalid completed" is rejected; "update 1 STATUS completed"
      is accepted, since the field word alone is lowercased. */
  lemma UpdateFieldExample()
    ensures ParseCommand("update" + " " + "1" + " " + "invalid" + " " + "completed" + "")
            == Failure("Invalid field argument")
    ensures ParseCommand("update" + " " + "1" + " " + "STATUS" + " " + "completed" + "")
            == Success(Update(1, "completed", Status))
  {
    FieldSpellings();
    assert ParseU32("1") == Success(1);
    UpdateReadsThreeTokens("update", "1", "invalid", "completed", "");
    UpdateReadsThreeTokens("update", "1", "STATUS", "completed", "");
  }

  /** "export json output.json", "e y output.yaml" and "e p output.txt". */
  lemma ExportExample()
    ensures ParseCommand("export" + " " + "json" + " " + "output.json" + "")
            == Success(Export(Json, "output.json"))
    ensures ParseCommand("e" + " " + "y" + " " + "output.yaml" + "")
            == Success(Export(Yaml, "output.yaml"))
    ensures ParseCommand("e" + " " + "p" + " " + "output.txt" + "")
            == Success(Export(Plaintext, "output.txt"))
  {
    assert ParseFormat("json") == Success(Json);
    assert ParseFormat("y") == Success(Yaml) && ParseFormat("p") == Success(Plaintext);
    ExportReadsFormatAndFile("export", "json", "output.json", "");
    ExportReadsFormatAndFile("e", "y", "output.yaml", "");
    ExportReadsFormatAndFile("e", "p", "output.txt", "");
  }

  /** "export json" (no file), "export invalid output.txt", and
      "export JSON out" (a format in capitals). */
  lemma ExportErrorExample()
    ensures ParseCommand("export" + " " + "json") == Failure("Invalid arguments for export.")
    ensures ParseCommand("export" + " " + "invalid" + " " + "output.txt" + "")
            == Failure("Invalid export format.")
    ensures ParseCommand("export" + " " + "JSON" + " " + "out" + "")
            == Failure("Invalid export format.")
  {
    ExportNeedsOutputFile("export", "json");
    ExportReadsFormatAndFile("export", "invalid", "output.txt", "");
    ExportReadsFormatAndFile("export", "JSON", "out", "");
  }
}
