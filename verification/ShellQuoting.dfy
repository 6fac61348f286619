/** Quoting a string for a POSIX shell, against a model of how the shell takes a command line apart. */
module ShellQuoting {
  import opened Common

  const QUOTE: char := '\''
  const BACKSLASH: char := '\\'
  const SPACE: char := ' '

  /** Every quote becomes quote, backslash, quote, quote. */
  function ReplaceQuotes(s: string): string {
    if s == "" then ""
    else if s[0] == QUOTE then [QUOTE, BACKSLASH, QUOTE, QUOTE] + ReplaceQuotes(s[1..])
    else [s[0]] + ReplaceQuotes(s[1..])
  }

  function ShellEscape(s: string): string {
    [QUOTE] + ReplaceQuotes(s) + [QUOTE]
  }

  function Join(args: seq<string>): string {
    if args == [] then ""
    else if |args| == 1 then ShellEscape(args[0])
    else ShellEscape(args[0]) + [SPACE] + Join(args[1..])
  }

  // ---- The shell -----------------------------------------------------------------------------

  /** Characters that mean something to the shell when they stand unquoted (section 2.2 of the Shell Command Language,
      POSIX.1-2017). Double quotes are among them here: nothing below needs them. */
  predicate Special(c: char) {
    c in ['|', '&', ';', '<', '>', '(', ')', '$', '`', '"', '*', '?', '[', ']', '#', '~', '=', '%', '!', '{', '}', '^']
  }

  predicate Blank(c: char) {
    c == ' ' || c == '\t' || c == '\n'
  }

  /** The words of a command line. `word` is the word being built, absent between words; `quoted` says whether we are
      inside single quotes. Inside them every character stands for itself up to the next quote (section 2.2.2); outside,
      a backslash keeps the next character (section 2.2.1), except that backslash-newline disappears. There is no
      result when a quote or backslash is left open or an unquoted character is special. */
  function Words(input: string, word: Option<string>, quoted: bool): Option<seq<string>>
    decreases |input|
  {
    if input == "" then
      if quoted then None else Some(if word.Some? then [word.value] else [])
    else
      var c, rest := input[0], input[1..];
      var open := if word.Some? then word.value else "";
      if quoted then
        if c == QUOTE then Words(rest, Some(open), false) else Words(rest, Some(open + [c]), true)
      else if c == QUOTE then Words(rest, Some(open), true)
      else if c == BACKSLASH then
        if rest == "" then None
        else if rest[0] == '\n' then Words(rest[1..], word, false)
        else Words(rest[1..], Some(open + [rest[0]]), false)
      else if Blank(c) then
        var more := Words(rest, None, false);
        if word.None? || more.None? then more else Some([word.value] + more.value)
      else if Special(c) then None
      else Words(rest, Some(open + [c]), false)
  }

  function Tokenize(line: string): Option<seq<string>> {
    Words(line, None, false)
  }

  // ---- Round trip ----------------------------------------------------------------------------

  /** Leaving the quotes, an escaped quote and entering them again add one quote to the word. */
  lemma EscapedQuote(open: string, tail: string)
    ensures Words([QUOTE, BACKSLASH, QUOTE, QUOTE] + tail, Some(open), true) == Words(tail, Some(open + [QUOTE]), true)
  {
    var a := [QUOTE, BACKSLASH, QUOTE, QUOTE] + tail;
    var b := [BACKSLASH, QUOTE, QUOTE] + tail;
    var c := [QUOTE, QUOTE] + tail;
    var d := [QUOTE] + tail;
    assert a[1..] == b && b[1..] == c && c[1..] == d && d[1..] == tail;
    assert Words(a, Some(open), true) == Words(b, Some(open), false);
    assert Words(b, Some(open), false) == Words(d, Some(open + [QUOTE]), false);
    assert Words(d, Some(open + [QUOTE]), false) == Words(tail, Some(open + [QUOTE]), true);
  }

  /** Inside quotes, the escaped text followed by a closing quote adds exactly the original text to the word. */
  lemma {:induction false} QuotedText(s: string, open: string, rest: string)
    ensures Words(ReplaceQuotes(s) + [QUOTE] + rest, Some(open), true) == Words(rest, Some(open + s), false)
    decreases |s|
  {
    var input := ReplaceQuotes(s) + [QUOTE] + rest;
    if s == "" {
      assert input[1..] == rest && open + s == open;
    } else if s[0] == QUOTE {
      var tail := ReplaceQuotes(s[1..]) + [QUOTE] + rest;
      assert input == [QUOTE, BACKSLASH, QUOTE, QUOTE] + tail;
      EscapedQuote(open, tail);
      QuotedText(s[1..], open + [QUOTE], rest);
      assert open + [QUOTE] + s[1..] == open + s;
    } else {
      var tail := ReplaceQuotes(s[1..]) + [QUOTE] + rest;
      assert input == [s[0]] + tail;
      assert input[1..] == tail;
      QuotedText(s[1..], open + [s[0]], rest);
      assert open + [s[0]] + s[1..] == open + s;
    }
  }

  /** An escaped string at the start of a word is read back as the string. */
  lemma EscapedWord(s: string, rest: string)
    ensures Words(ShellEscape(s) + rest, None, false) == Words(rest, Some(s), false)
  {
    var input := ShellEscape(s) + rest;
    assert input[1..] == ReplaceQuotes(s) + [QUOTE] + rest;
    QuotedText(s, "", rest);
    assert "" + s == s;
  }

  /** Escaping a list of strings, joining them with spaces and letting the shell take the line apart gives back
      exactly the list, whatever the strings hold. */
  lemma {:induction false} TokenizeOfJoin(args: seq<string>)
    ensures Tokenize(Join(args)) == Some(args)
    decreases |args|
  {
    if |args| == 1 {
      EscapedWord(args[0], "");
      assert ShellEscape(args[0]) + "" == Join(args);
      assert [args[0]] == args;
    } else if args != [] {
      var rest := [SPACE] + Join(args[1..]);
      EscapedWord(args[0], rest);
      assert ShellEscape(args[0]) + rest == Join(args);
      assert rest[1..] == Join(args[1..]);
      TokenizeOfJoin(args[1..]);
      assert [args[0]] + args[1..] == args;
    }
  }

  /** Different strings never escape to the same text. */
  lemma EscapeIsInjective(a: string, b: string)
    requires ShellEscape(a) == ShellEscape(b)
    ensures a == b
  {
    TokenizeOfJoin([a]);
    TokenizeOfJoin([b]);
  }
}
