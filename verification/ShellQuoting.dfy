/** The remote-command quoter, undone by the word recognition and quote removal of a POSIX shell. */
module ShellQuoting {
  import opened Bytes

  // ----- the quoter -----

  /** The characters a word may carry unquoted. */
  predicate Safe(c: char) {
    'A' <= c <= 'Z' || 'a' <= c <= 'z' || '0' <= c <= '9'
    || c == '_' || c == '.' || c == '/' || c == ':' || c == '=' || c == '@' || c == '%' || c == '+' || c == ','
    || c == '-'
  }

  predicate AllSafe(v: string) {
    v != "" && forall i :: 0 <= i < |v| ==> Safe(v[i])
  }

  /** Every apostrophe becomes: close, escaped apostrophe, open. */
  function EscapeApostrophes(v: string): string {
    if v == "" then ""
    else (if v[0] == '\'' then "'\\''" else [v[0]]) + EscapeApostrophes(v[1..])
  }

  function ShellQuote(v: string): string {
    if AllSafe(v) then v else "'" + EscapeApostrophes(v) + "'"
  }

  function Join(words: seq<string>): string {
    if words == [] then ""
    else if |words| == 1 then words[0]
    else words[0] + " " + Join(words[1..])
  }

  function QuoteAll(words: seq<string>): (r: seq<string>)
    ensures |r| == |words| && forall i :: 0 <= i < |words| ==> r[i] == ShellQuote(words[i])
  {
    seq(|words|, i requires 0 <= i < |words| => ShellQuote(words[i]))
  }

  /** The command with its `env` prefix, when an environment is given and not empty. */
  function FullCommand(command: seq<string>, env: Option<seq<string>>): seq<string> {
    if env.None? || env.value == [] then command else ["env"] + env.value + command
  }

  function RemoteCommand(command: seq<string>, env: Option<seq<string>>): string {
    Join(QuoteAll(FullCommand(command, env)))
  }

  // ----- the shell (POSIX.1-2017, Shell Command Language, sections 2.2 and 2.3) -----

  datatype Mode = Bare | Single | Double

  /** Unquoted, these end the command, redirect, expand, match files or start a comment. */
  predicate Special(c: char) {
    || c == '|' || c == '&' || c == ';' || c == '<' || c == '>' || c == '(' || c == ')' || c == '\n'
    || c == '$' || c == '`' || c == '*' || c == '?' || c == '[' || c == '#' || c == '~'
  }

  function Append(word: Option<string>, t: string): Option<string> {
    match word
    case None => Some(t)
    case Some(w) => Some(w + t)
  }

  function Emit(word: Option<string>, rest: Option<seq<string>>): Option<seq<string>> {
    match word
    case None => rest
    case Some(w) => if rest.None? then None else Some([w] + rest.value)
  }

  /** The words of a command line after quote removal, or None when it is more than plain words.
      `word` is the word begun so far. */
  function Words(s: string, mode: Mode, word: Option<string>): Option<seq<string>>
    decreases |s|
  {
    if s == "" then if mode == Bare then Emit(word, Some([])) else None
    else
      var c, rest := s[0], s[1..];
      match mode
      case Bare =>
        if c == ' ' || c == '\t' then Emit(word, Words(rest, Bare, None))
        else if c == '\'' then Words(rest, Single, Append(word, ""))
        else if c == '"' then Words(rest, Double, Append(word, ""))
        else if c == '\\' then
          if rest == "" then None
          else if rest[0] == '\n' then Words(rest[1..], Bare, word)
          else Words(rest[1..], Bare, Append(word, [rest[0]]))
        else if Special(c) then None
        else Words(rest, Bare, Append(word, [c]))
      case Single =>
        if c == '\'' then Words(rest, Bare, word) else Words(rest, Single, Append(word, [c]))
      case Double =>
        if c == '"' then Words(rest, Bare, word)
        else if c == '$' || c == '`' then None
        else if c == '\\' && rest != "" && rest[0] == '\n' then Words(rest[1..], Double, word)
        else if c == '\\' && rest != "" && (rest[0] == '$' || rest[0] == '`' || rest[0] == '"' || rest[0] == '\\')
        then Words(rest[1..], Double, Append(word, [rest[0]]))
        else Words(rest, Double, Append(word, [c]))
  }

  // ----- quoting is undone -----

  lemma {:induction false} SafeWord(v: string, rest: string, word: Option<string>)
    requires forall i :: 0 <= i < |v| ==> Safe(v[i])
    ensures v != "" ==> Words(v + rest, Bare, word) == Words(rest, Bare, Append(word, v))
    decreases |v|
  {
    if v != "" {
      assert (v + rest)[0] == v[0] && (v + rest)[1..] == v[1..] + rest;
      assert Words(v + rest, Bare, word) == Words(v[1..] + rest, Bare, Append(word, [v[0]]));
      if |v| == 1 {
        assert v[1..] + rest == rest && v == [v[0]];
      } else {
        SafeWord(v[1..], rest, Append(word, [v[0]]));
        assert [v[0]] + v[1..] == v;
        if word.Some? { assert (word.value + [v[0]]) + v[1..] == word.value + v; }
      }
    }
  }

  lemma {:induction false} QuotedBody(v: string, rest: string, word: string)
    ensures Words(EscapeApostrophes(v) + "'" + rest, Single, Some(word)) == Words(rest, Bare, Some(word + v))
    decreases |v|
  {
    var s := EscapeApostrophes(v) + "'" + rest;
    if v == "" {
      assert s[0] == '\'' && s[1..] == rest;
      assert word + v == word;
    } else {
      var tail := EscapeApostrophes(v[1..]) + "'" + rest;
      QuotedBody(v[1..], rest, word + [v[0]]);
      assert (word + [v[0]]) + v[1..] == word + v;
      if v[0] == '\'' {
        assert s == ['\'', '\\', '\'', '\''] + tail;
        ApostropheSteps(s, tail, word);
      } else {
        assert s[0] == v[0] && s[1..] == tail;
      }
    }
  }

  lemma {:induction false} ApostropheSteps(s: string, tail: string, word: string)
    requires s == ['\'', '\\', '\'', '\''] + tail
    ensures Words(s, Single, Some(word)) == Words(tail, Single, Some(word + "'"))
  {
    var s1, s3 := s[1..], s[3..];
    assert s1 == ['\\', '\'', '\''] + tail && s1[1..][1..] == s3 && s1[1..][0] == '\'';
    assert s3 == ['\''] + tail && s3[1..] == tail;
    assert Words(s, Single, Some(word)) == Words(s1, Bare, Some(word));
    assert Words(s1, Bare, Some(word)) == Words(s3, Bare, Some(word + "'"));
    assert (word + "'") + "" == word + "'";
    assert Words(s3, Bare, Some(word + "'")) == Words(tail, Single, Some(word + "'"));
  }

  /** One quoted word reads back as itself. */
  lemma {:induction false} QuotedWord(v: string, rest: string)
    ensures Words(ShellQuote(v) + rest, Bare, None) == Words(rest, Bare, Some(v))
  {
    if AllSafe(v) {
      SafeWord(v, rest, None);
      assert "" + v == v;
      assert Append(None, v) == Some(v);
    } else {
      var body := EscapeApostrophes(v) + "'" + rest;
      assert (ShellQuote(v) + rest)[0] == '\'' && (ShellQuote(v) + rest)[1..] == body;
      QuotedBody(v, rest, "");
      assert "" + v == v;
      assert Append(None, "") == Some("");
    }
  }

  lemma {:induction false} WordsOfJoin(words: seq<string>)
    ensures Words(Join(QuoteAll(words)), Bare, None) == Some(words)
  {
    var q := QuoteAll(words);
    if words == [] {
    } else if |words| == 1 {
      assert q[0] + "" == q[0];
      QuotedWord(words[0], "");
      assert [words[0]] + [] == words;
    } else {
      assert q[1..] == QuoteAll(words[1..]);
      var rest := " " + Join(q[1..]);
      assert Join(q) == q[0] + rest;
      QuotedWord(words[0], rest);
      assert rest[0] == ' ' && rest[1..] == Join(q[1..]);
      WordsOfJoin(words[1..]);
      assert [words[0]] + words[1..] == words;
    }
  }

  /** The shell sees exactly the argument list that was meant: the command, after `env` and the
      environment when there is one. */
  lemma {:induction false} ShellUndoesQuoting(command: seq<string>, env: Option<seq<string>>)
    ensures Words(RemoteCommand(command, env), Bare, None)
      == Some(if env.Some? && |env.value| > 0 then ["env"] + env.value + command else command)
  {
    WordsOfJoin(FullCommand(command, env));
  }

  // ----- the first word and assignments (section 2.9.1) -----

  predicate NameStart(c: char) {
    'A' <= c <= 'Z' || 'a' <= c <= 'z' || c == '_'
  }

  predicate NameChar(c: char) {
    NameStart(c) || '0' <= c <= '9'
  }

  /** The source text of a word that a shell takes for `name=value`. */
  predicate AssignmentWord(raw: string) {
    exists i :: 0 < i < |raw| && raw[i] == '=' && NameStart(raw[0]) && forall j :: 0 <= j < i ==> NameChar(raw[j])
  }

  /** The words section 2.4 reserves, recognized only where no character is quoted. */
  predicate ReservedWord(raw: string) {
    || raw == "!" || raw == "{" || raw == "}" || raw == "case" || raw == "do" || raw == "done" || raw == "elif"
    || raw == "else" || raw == "esac" || raw == "fi" || raw == "for" || raw == "if" || raw == "in" || raw == "then"
    || raw == "until" || raw == "while"
  }

  /** A first word that is neither names the command to run. */
  predicate NamesCommand(raw: string) {
    !AssignmentWord(raw) && !ReservedWord(raw)
  }

  /** Quoting turns an argument into an assignment exactly when it is an all-safe `name=value`. */
  lemma {:induction false} AssignmentSurvivesIffSafe(v: string)
    ensures AssignmentWord(ShellQuote(v)) <==> AllSafe(v) && AssignmentWord(v)
  {}

  /** And into a reserved word exactly when it is an all-safe one; all are, but for the braces and `!`. */
  lemma {:induction false} ReservedSurvivesIffSafe(v: string)
    ensures ReservedWord(ShellQuote(v)) <==> AllSafe(v) && ReservedWord(v)
    ensures ReservedWord(v) ==> (AllSafe(v) <==> v != "!" && v != "{" && v != "}")
  {
    if AllSafe(v) { assert Safe(v[0]); } else { assert ShellQuote(v)[0] == '\''; }
  }

  /** The first word of a remote command names the command, exactly when there is an environment, or it
      is not an all-safe assignment or reserved word already. */
  lemma {:induction false} FirstWordRunsIff(command: seq<string>, env: Option<seq<string>>)
    requires FullCommand(command, env) != []
    ensures var full := FullCommand(command, env);
      NamesCommand(QuoteAll(full)[0]) <==>
        || (env.Some? && env.value != [])
        || !(AllSafe(command[0]) && (AssignmentWord(command[0]) || ReservedWord(command[0])))
  {
    var first := FullCommand(command, env)[0];
    AssignmentSurvivesIffSafe(first);
    ReservedSurvivesIffSafe(first);
    EnvIsCommand();
    hide ReservedWord; hide AssignmentWord; hide AllSafe; hide ShellQuote;
  }

  lemma {:induction false} EnvIsCommand()
    ensures NamesCommand("env") && AllSafe("env")
  {}
}
