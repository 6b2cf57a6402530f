/** Shell quoting of remote commands, judged by an independent reader of shell input:
    token recognition and quoting as in sections 2.2 and 2.3 of the POSIX.1-2017 Shell Command Language. */
module Shell {
  import opened Wrappers

  // ---- the quoting side ----

  datatype ElevationMode = NoElevation | Sudo | Pfexec

  datatype RemoteCommand = RemoteCommand(command: string, elevate: ElevationMode)

  /** `value.replace('\'', "'\"'\"'")`. */
  function Escaped(value: string): string {
    if value == "" then ""
    else (if value[0] == '\'' then "'\"'\"'" else [value[0]]) + Escaped(value[1..])
  }

  function ShellQuote(value: string): string {
    "'" + Escaped(value) + "'"
  }

  function ShellLine(cmd: RemoteCommand): string {
    match cmd.elevate
    case NoElevation => "sh -lc " + ShellQuote(cmd.command)
    case Sudo => "sudo -n sh -lc " + ShellQuote(cmd.command)
    case Pfexec => "pfexec sh -lc " + ShellQuote(cmd.command)
  }

  /** The script that receives an upload on its standard input. */
  function UploadScript(parent: string, remote: string): string {
    "mkdir -p " + ShellQuote(parent) + " && cat > " + ShellQuote(remote)
  }

  function UploadLine(parent: string, remote: string): string {
    "sh -lc " + ShellQuote(UploadScript(parent, remote))
  }

  // ---- the reading side ----

  /** A word after quote removal, or an operator. */
  datatype Token = Word(text: string) | Op(text: string)

  datatype Mode = Plain | InSingle | InDouble

  predicate IsBlank(c: char) {
    c == ' ' || c == '\t'
  }

  predicate IsOperatorChar(c: char) {
    c in "&|;<>()\n"
  }

  /** Characters that, unquoted, start an expansion, a pattern, a comment, an assignment or a reserved
      word. The reader gives up on them, so that a reading means that none of this took place. */
  predicate IsActive(c: char) {
    c in "$`\\*?[]#~=%!{}^"
  }

  /** Characters that keep a meaning inside double quotes. */
  predicate IsActiveInDouble(c: char) {
    c in "$`\\!"
  }

  function Emit(word: Option<string>): seq<Token> {
    if word.Some? then [Word(word.value)] else []
  }

  function Extend(word: Option<string>, c: char): Option<string> {
    Some((if word.Some? then word.value else "") + [c])
  }

  function Begun(word: Option<string>): Option<string> {
    if word.Some? then word else Some("")
  }

  /** Reads `s` in a quoting mode with a word under construction; `None` when a quote is left open or an
      active character is met. Of the operators it knows `&&` and the single-character ones. */
  function Lex(s: string, mode: Mode, word: Option<string>): Option<seq<Token>>
    decreases |s|
  {
    if s == "" then (if mode.Plain? then Some(Emit(word)) else None)
    else
      var c, rest := s[0], s[1..];
      match mode
      case InSingle =>
        if c == '\'' then Lex(rest, Plain, word) else Lex(rest, InSingle, Extend(word, c))
      case InDouble =>
        if c == '"' then Lex(rest, Plain, word)
        else if IsActiveInDouble(c) then None
        else Lex(rest, InDouble, Extend(word, c))
      case Plain =>
        if c == '\'' then Lex(rest, InSingle, Begun(word))
        else if c == '"' then Lex(rest, InDouble, Begun(word))
        else if IsBlank(c) then Prepend(Emit(word), Lex(rest, Plain, None))
        else if c == '&' && rest != "" && rest[0] == '&' then
          Prepend(Emit(word) + [Op("&&")], Lex(rest[1..], Plain, None))
        else if IsOperatorChar(c) then Prepend(Emit(word) + [Op([c])], Lex(rest, Plain, None))
        else if IsActive(c) then None
        else Lex(rest, Plain, Extend(word, c))
  }

  function Prepend(front: seq<Token>, tokens: Option<seq<Token>>): Option<seq<Token>> {
    if tokens.None? then None else Some(front + tokens.value)
  }

  function Read(line: string): Option<seq<Token>> {
    Lex(line, Plain, None)
  }

  // ---- one quoted value ----

  function Joined(word: Option<string>, value: string): string {
    (if word.Some? then word.value else "") + value
  }

  /** Inside the opening quote, the escaped value and the closing quote add exactly the value to the
      word under construction, whatever the value and whatever follows. */
  lemma {:induction false} LexEscaped(value: string, word: Option<string>, after: string)
    requires word.Some?
    ensures Lex(Escaped(value) + "'" + after, InSingle, word) == Lex(after, Plain, Some(word.value + value))
    decreases |value|
  {
    hide Lex;
    if value == "" {
      assert Escaped(value) + "'" + after == "'" + after;
      assert word.value + value == word.value;
      LexCloseSingle(after, word);
    } else {
      var tail := Escaped(value[1..]) + "'" + after;
      var word' := Some(word.value + [value[0]]);
      assert word'.value + value[1..] == word.value + value;
      EscapedFirst(value, after);
      hide Escaped;
      LexEscaped(value[1..], word', after);
      if value[0] == '\'' {
        LexApostrophe(word, tail);
      } else {
        LexInSingle(value[0], tail, word);
      }
    }
  }

  lemma {:induction false} EscapedFirst(value: string, after: string)
    requires value != ""
    ensures var tail := Escaped(value[1..]) + "'" + after;
            Escaped(value) + "'" + after == (if value[0] == '\'' then "'\"'\"'" else [value[0]]) + tail
  {
  }

  /** The five characters that stand for an apostrophe: close, quote it doubly, reopen. */
  lemma {:induction false} LexApostrophe(word: Option<string>, tail: string)
    requires word.Some?
    ensures Lex("'\"'\"'" + tail, InSingle, word) == Lex(tail, InSingle, Some(word.value + "'"))
  {
    hide Lex;
    var s4 := "'" + tail;
    var s3 := "\"" + s4;
    var s2 := "'" + s3;
    var s1 := "\"" + s2;
    assert "'\"'\"'" + tail == "'" + s1;
    LexCloseSingle(s1, word);
    LexDoubleQuote(s2, word);
    LexInDouble(s3, word);
    LexDoubleQuote(s4, Extend(word, '\''));
    LexOpenSingle(tail, Extend(word, '\''));
  }

  lemma {:induction false} LexOpenSingle(after: string, word: Option<string>)
    ensures Lex("'" + after, Plain, word) == Lex(after, InSingle, Begun(word))
  {
    assert ("'" + after)[1..] == after;
  }

  lemma {:induction false} LexCloseSingle(after: string, word: Option<string>)
    ensures Lex("'" + after, InSingle, word) == Lex(after, Plain, word)
  {
    assert ("'" + after)[1..] == after;
  }

  lemma {:induction false} LexDoubleQuote(after: string, word: Option<string>)
    requires word.Some?
    ensures Lex("\"" + after, Plain, word) == Lex(after, InDouble, word)
    ensures Lex("\"" + after, InDouble, word) == Lex(after, Plain, word)
  {
    assert ("\"" + after)[1..] == after;
  }

  lemma {:induction false} LexInDouble(after: string, word: Option<string>)
    ensures Lex("'" + after, InDouble, word) == Lex(after, InDouble, Extend(word, '\''))
  {
    assert ("'" + after)[1..] == after;
  }

  lemma {:induction false} LexInSingle(c: char, after: string, word: Option<string>)
    requires c != '\''
    ensures Lex([c] + after, InSingle, word) == Lex(after, InSingle, Extend(word, c))
  {
    assert ([c] + after)[1..] == after;
  }

  lemma {:induction false} LexQuoted(value: string, word: Option<string>, after: string)
    ensures Lex(ShellQuote(value) + after, Plain, word) == Lex(after, Plain, Some(Joined(word, value)))
  {
    var inner := Escaped(value) + "'" + after;
    assert ShellQuote(value) + after == "'" + inner;
    assert ("'" + inner)[1..] == inner;
    LexEscaped(value, Begun(word), after);
  }

  /** A quoted value at the end of a line is one last word equal to the value. */
  lemma LexQuotedLast(value: string)
    ensures Lex(ShellQuote(value), Plain, None) == Some([Word(value)])
  {
    LexQuoted(value, None, "");
    assert ShellQuote(value) + "" == ShellQuote(value);
    assert Joined(None, value) == value;
  }

  // ---- plain words before it ----

  predicate IsPlainWord(w: string) {
    forall i :: 0 <= i < |w| ==>
      !IsBlank(w[i]) && !IsOperatorChar(w[i]) && !IsActive(w[i]) && w[i] != '\'' && w[i] != '"'
  }

  lemma {:induction false} LexPlain(w: string, word: string, after: string)
    requires IsPlainWord(w)
    ensures Lex(w + after, Plain, Some(word)) == Lex(after, Plain, Some(word + w))
    decreases |w|
  {
    if w == "" {
      assert w + after == after && word + w == word;
    } else {
      assert (w + after)[1..] == w[1..] + after;
      assert word + [w[0]] + w[1..] == word + w;
      LexPlain(w[1..], word + [w[0]], after);
    }
  }

  /** A plain word and a blank contribute that word. */
  lemma {:induction false} LexPlainWord(w: string, after: string)
    requires IsPlainWord(w) && w != ""
    ensures Lex(w + " " + after, Plain, None) == Prepend([Word(w)], Lex(after, Plain, None))
  {
    var tail := " " + after;
    assert w + " " + after == [w[0]] + (w[1..] + tail);
    assert (w + " " + after)[1..] == w[1..] + tail;
    assert "" + [w[0]] == [w[0]];
    assert Lex(w + " " + after, Plain, None) == Lex(w[1..] + tail, Plain, Some([w[0]]));
    LexPlain(w[1..], [w[0]], tail);
    assert [w[0]] + w[1..] == w;
    assert tail[0] == ' ' && tail[1..] == after;
  }

  lemma PrependTwice(a: seq<Token>, b: seq<Token>, tokens: Option<seq<Token>>)
    ensures Prepend(a, Prepend(b, tokens)) == Prepend(a + b, tokens)
  {
    if tokens.Some? {
      assert a + (b + tokens.value) == a + b + tokens.value;
    }
  }

  /** A line that starts with two plain words, each followed by a blank. */
  lemma {:induction false} LexTwoWords(v: string, w: string, line: string, after: string)
    requires IsPlainWord(v) && v != "" && IsPlainWord(w) && w != "" && line == v + " " + w + " "
    ensures Lex(line + after, Plain, None) == Prepend([Word(v), Word(w)], Lex(after, Plain, None))
  {
    hide Lex, IsPlainWord;
    assert line + after == v + " " + (w + " " + after);
    LexPlainWord(v, w + " " + after);
    LexPlainWord(w, after);
    PrependTwice([Word(v)], [Word(w)], Lex(after, Plain, None));
    assert [Word(v)] + [Word(w)] == [Word(v), Word(w)];
  }

  // ---- the command lines ----

  lemma ReadShellCall(value: string)
    ensures Read("sh -lc " + ShellQuote(value)) == Some([Word("sh"), Word("-lc"), Word(value)])
  {
    hide Lex, ShellQuote;
    var q := ShellQuote(value);
    assert "sh -lc " == "sh" + " " + "-lc" + " ";
    LexTwoWords("sh", "-lc", "sh -lc ", q);
    LexQuotedLast(value);
    assert [Word("sh"), Word("-lc")] + [Word(value)] == [Word("sh"), Word("-lc"), Word(value)];
  }

  /** The remote shell reads a command line as the fixed words of its elevation mode and one last word
      that is the command, character by character, for every command. */
  lemma ShellLineReadsBack(cmd: RemoteCommand)
    ensures cmd.elevate.NoElevation? ==> Read(ShellLine(cmd)) == Some([Word("sh"), Word("-lc"), Word(cmd.command)])
    ensures cmd.elevate.Sudo? ==>
              Read(ShellLine(cmd)) ==
              Some([Word("sudo"), Word("-n"), Word("sh"), Word("-lc"), Word(cmd.command)])
    ensures cmd.elevate.Pfexec? ==>
              Read(ShellLine(cmd)) == Some([Word("pfexec"), Word("sh"), Word("-lc"), Word(cmd.command)])
  {
    hide Lex, ShellQuote;
    var q := ShellQuote(cmd.command);
    ReadShellCall(cmd.command);
    match cmd.elevate {
      case NoElevation =>
      case Sudo =>
        LexSudo(q);
        assert [Word("sudo"), Word("-n")] + [Word("sh"), Word("-lc"), Word(cmd.command)] ==
               [Word("sudo"), Word("-n"), Word("sh"), Word("-lc"), Word(cmd.command)];
      case Pfexec =>
        LexPfexec(q);
        assert [Word("pfexec")] + [Word("sh"), Word("-lc"), Word(cmd.command)] ==
               [Word("pfexec"), Word("sh"), Word("-lc"), Word(cmd.command)];
    }
  }

  lemma {:induction false} LexSudo(q: string)
    ensures Lex("sudo -n sh -lc " + q, Plain, None) ==
            Prepend([Word("sudo"), Word("-n")], Lex("sh -lc " + q, Plain, None))
  {
    hide Lex;
    assert "sudo -n " == "sudo" + " " + "-n" + " ";
    LexTwoWords("sudo", "-n", "sudo -n ", "sh -lc " + q);
    Rejoined("sudo -n ", "sh -lc ", q);
    assert "sudo -n " + "sh -lc " == "sudo -n sh -lc ";
  }

  lemma {:induction false} LexPfexec(q: string)
    ensures Lex("pfexec sh -lc " + q, Plain, None) == Prepend([Word("pfexec")], Lex("sh -lc " + q, Plain, None))
  {
    hide Lex;
    PfexecPieces(q);
    LexPlainWord("pfexec", "sh -lc " + q);
  }

  lemma PfexecPieces(q: string)
    ensures "pfexec sh -lc " + q == "pfexec" + " " + ("sh -lc " + q)
  {
    Rejoined("pfexec" + " ", "sh -lc ", q);
    assert "pfexec" + " " + "sh -lc " == "pfexec sh -lc ";
  }

  lemma Rejoined(a: string, b: string, c: string)
    ensures a + b + c == a + (b + c)
  {
  }

  // ---- the upload script ----

  lemma {:induction false} LexBlank(word: Option<string>, after: string)
    ensures Lex(" " + after, Plain, word) == Prepend(Emit(word), Lex(after, Plain, None))
  {
    assert (" " + after)[1..] == after;
  }

  lemma {:induction false} LexAndAnd(after: string)
    ensures Lex("&&" + after, Plain, None) == Prepend([Op("&&")], Lex(after, Plain, None))
  {
    assert ("&&" + after)[1..][1..] == after;
    assert Emit(None) + [Op("&&")] == [Op("&&")];
  }

  lemma {:induction false} LexInto(after: string)
    ensures Lex(">" + after, Plain, None) == Prepend([Op(">")], Lex(after, Plain, None))
  {
    assert (">" + after)[1..] == after;
    assert Emit(None) + [Op(">")] == [Op(">")];
  }

  lemma {:induction false} LexGap(after: string)
    ensures Lex(" " + after, Plain, None) == Lex(after, Plain, None)
  {
    LexBlank(None, after);
    if Lex(after, Plain, None).Some? {
      assert [] + Lex(after, Plain, None).value == Lex(after, Plain, None).value;
    }
  }

  /** The second half of the script, after the quoted directory. */
  lemma ReadRedirect(remote: string)
    ensures Lex("&& cat > " + ShellQuote(remote), Plain, None) == Some([Op("&&"), Word("cat"), Op(">"), Word(remote)])
  {
    hide Lex, ShellQuote;
    var q := ShellQuote(remote);
    assert "&& cat > " == "&&" + " " + "cat > ";
    Rejoined("&&", " ", "cat > ");
    Rejoined("&&", " " + "cat > ", q);
    Rejoined(" ", "cat > ", q);
    LexAndAnd(" " + ("cat > " + q));
    LexGap("cat > " + q);
    LexCatInto(q);
    LexQuotedLast(remote);
    PrependTwice([Op("&&")], [Word("cat"), Op(">")], Some([Word(remote)]));
    assert [Op("&&")] + [Word("cat"), Op(">")] + [Word(remote)] == [Op("&&"), Word("cat"), Op(">"), Word(remote)];
  }

  lemma {:induction false} LexCatInto(after: string)
    ensures Lex("cat > " + after, Plain, None) == Prepend([Word("cat"), Op(">")], Lex(after, Plain, None))
  {
    hide Lex;
    CatPieces(after);
    LexPlainWord("cat", ">" + (" " + after));
    LexInto(" " + after);
    LexGap(after);
    PrependTwice([Word("cat")], [Op(">")], Lex(after, Plain, None));
    assert [Word("cat")] + [Op(">")] == [Word("cat"), Op(">")];
  }

  lemma CatPieces(after: string)
    ensures "cat > " + after == "cat" + " " + (">" + (" " + after))
  {
    assert "cat > " == "cat" + " " + (">" + " ");
    Rejoined("cat" + " ", ">" + " ", after);
    Rejoined(">", " ", after);
  }

  lemma UploadScriptReadsBack(parent: string, remote: string)
    ensures Read(UploadScript(parent, remote)) ==
            Some([Word("mkdir"), Word("-p"), Word(parent), Op("&&"), Word("cat"), Op(">"), Word(remote)])
  {
    hide Lex, ShellQuote;
    var half := "&& cat > " + ShellQuote(remote);
    var quoted := ShellQuote(parent);
    assert "mkdir -p " == "mkdir" + " " + "-p" + " ";
    LexTwoWords("mkdir", "-p", "mkdir -p ", quoted + (" " + half));
    ScriptPieces(quoted, ShellQuote(remote));
    LexQuoted(parent, None, " " + half);
    assert Joined(None, parent) == parent;
    LexBlank(Some(parent), half);
    ReadRedirect(remote);
    var tail := [Op("&&"), Word("cat"), Op(">"), Word(remote)];
    assert [Word("mkdir"), Word("-p")] + ([Word(parent)] + tail) ==
           [Word("mkdir"), Word("-p"), Word(parent), Op("&&"), Word("cat"), Op(">"), Word(remote)];
  }

  lemma ScriptPieces(a: string, b: string)
    ensures "mkdir -p " + a + " && cat > " + b == "mkdir -p " + (a + (" " + ("&& cat > " + b)))
  {
    assert " && cat > " == " " + "&& cat > ";
    Rejoined(" ", "&& cat > ", b);
    Rejoined("mkdir -p " + a, " && cat > ", b);
    Rejoined("mkdir -p ", a, " && cat > " + b);
  }

  /** Two levels deep: the remote login shell hands the script on whole, and the inner shell reads both
      paths back unchanged, whatever characters they contain. */
  lemma NestedQuotingReadsBack(parent: string, remote: string)
    ensures Read(UploadLine(parent, remote)) == Some([Word("sh"), Word("-lc"), Word(UploadScript(parent, remote))])
    ensures Read(UploadScript(parent, remote)) ==
            Some([Word("mkdir"), Word("-p"), Word(parent), Op("&&"), Word("cat"), Op(">"), Word(remote)])
  {
    ReadShellCall(UploadScript(parent, remote));
    UploadScriptReadsBack(parent, remote);
  }

  /** Different commands or modes never share a command line. */
  lemma ShellLineInjective(a: RemoteCommand, b: RemoteCommand)
    ensures ShellLine(a) == ShellLine(b) <==> a == b
  {
    hide ShellLine, Lex;
    ShellLineReadsBack(a);
    ShellLineReadsBack(b);
    if ShellLine(a) == ShellLine(b) {
      var x, y := Read(ShellLine(a)).value, Read(ShellLine(b)).value;
      assert x[0] == y[0] && x[|x| - 1] == y[|y| - 1];
      assert x[|x| - 1] == Word(a.command) && y[|y| - 1] == Word(b.command);
    }
  }
}
