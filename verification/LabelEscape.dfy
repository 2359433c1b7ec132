/** How a label's value is escaped, and how a reader gets it back. */
module LabelEscape {
  import opened Wrappers

  // ------------------------------------------------- three passes, or one

  function Replace(s: string, c: char, with: string): string {
    if s == "" then "" else (if s[0] == c then with else [s[0]]) + Replace(s[1..], c, with)
  }

  /** Doubles the backslashes, then writes newlines as two characters, then puts a backslash before quotes. */
  function EscapeLabel(s: string): string {
    Replace(Replace(Replace(s, '\\', "\\\\"), '\n', "\\n"), '"', "\\\"")
  }

  function EscapeChar(c: char): string {
    if c == '\\' then "\\\\"
    else if c == '\n' then "\\n"
    else if c == '"' then "\\\""
    else [c]
  }

  /** Looks at each character once. */
  function Escape(s: string): string {
    if s == "" then "" else EscapeChar(s[0]) + Escape(s[1..])
  }

  lemma {:induction false} ReplaceOfSum(a: string, b: string, c: char, with: string)
    ensures Replace(a + b, c, with) == Replace(a, c, with) + Replace(b, c, with)
  {
    if a == "" {
      assert a + b == b;
    } else {
      assert (a + b)[1..] == a[1..] + b;
      ReplaceOfSum(a[1..], b, c, with);
    }
  }

  lemma {:induction false} ReplaceOfTwo(x: char, y: char, c: char, with: string)
    ensures Replace([x], c, with) == if x == c then with else [x]
    ensures Replace([x, y], c, with) == (if x == c then with else [x]) + (if y == c then with else [y])
  {
    assert [x][1..] == "" && [x, y][1..] == [y] && [y][1..] == "";
    assert Replace([y], c, with) == if y == c then with else [y];
  }

  lemma {:induction false} ThreePassesOfChar(c: char)
    ensures EscapeLabel([c]) == EscapeChar(c)
  {
    var first := Replace([c], '\\', "\\\\");
    ReplaceOfTwo(c, c, '\\', "\\\\");
    ReplaceOfTwo(c, c, '\n', "\\n");
    ReplaceOfTwo(c, c, '"', "\\\"");
    ReplaceOfTwo('\\', '\\', '\n', "\\n");
    ReplaceOfTwo('\\', '\\', '"', "\\\"");
    ReplaceOfTwo('\\', 'n', '"', "\\\"");
  }

  /** No pass undoes or repeats what another one did. */
  lemma {:induction false} ThreePassesAreOne(s: string)
    ensures EscapeLabel(s) == Escape(s)
  {
    if s != "" {
      assert s == [s[0]] + s[1..];
      var a, b := Replace([s[0]], '\\', "\\\\"), Replace(s[1..], '\\', "\\\\");
      ReplaceOfSum([s[0]], s[1..], '\\', "\\\\");
      ReplaceOfSum(a, b, '\n', "\\n");
      ReplaceOfSum(Replace(a, '\n', "\\n"), Replace(b, '\n', "\\n"), '"', "\\\"");
      ThreePassesOfChar(s[0]);
      ThreePassesAreOne(s[1..]);
    }
  }

  // ------------------------------------------------- reading back

  /** Every backslash starts an escape, and there is no newline or quote outside one. */
  predicate Clean(s: string) {
    if s == "" then true
    else if s[0] == '\\' then |s| >= 2 && s[1] in {'\\', 'n', '"'} && Clean(s[2..])
    else s[0] != '\n' && s[0] != '"' && Clean(s[1..])
  }

  lemma {:induction false} EscapedIsClean(s: string)
    ensures Clean(Escape(s)) && '\n' !in Escape(s)
  {
    if s != "" {
      EscapedIsClean(s[1..]);
      var head, tail := EscapeChar(s[0]), Escape(s[1..]);
      assert (head + tail)[|head|..] == tail;
    }
  }

  function Unescaped(c: char): Option<char> {
    if c == '\\' then Some('\\') else if c == 'n' then Some('\n') else if c == '"' then Some('"') else None
  }

  /** Reads up to the closing quote: the value, and what follows the quote. */
  function ReadQuoted(s: string): (r: Option<(string, string)>)
    ensures r.Some? ==> |r.value.1| < |s|
  {
    if s == "" || s[0] == '\n' then None
    else if s[0] == '"' then Some(("", s[1..]))
    else if s[0] == '\\' then
      if |s| < 2 || Unescaped(s[1]).None? then None
      else Prepend(Unescaped(s[1]).value, ReadQuoted(s[2..]))
    else Prepend(s[0], ReadQuoted(s[1..]))
  }

  function Prepend(c: char, r: Option<(string, string)>): (p: Option<(string, string)>)
    ensures p.Some? <==> r.Some?
    ensures p.Some? ==> p.value.1 == r.value.1
  {
    if r.None? then None else Some(([c] + r.value.0, r.value.1))
  }

  /** Escaping has an inverse: a reader finds the value whatever follows it. */
  lemma {:induction false} QuotedIsReadBack(s: string, rest: string)
    ensures ReadQuoted(Escape(s) + "\"" + rest) == Some((s, rest))
  {
    if s == "" {
      assert "" + "\"" + rest == "\"" + rest;
      assert ("\"" + rest)[1..] == rest;
    } else {
      var head, tail := EscapeChar(s[0]), Escape(s[1..]) + "\"" + rest;
      var text := Escape(s) + "\"" + rest;
      assert text == head + tail;
      assert text[|head|..] == tail;
      QuotedIsReadBack(s[1..], rest);
      assert [s[0]] + s[1..] == s;
    }
  }

  /** Different values stay different. */
  lemma {:induction false} EscapeIsInjective(a: string, b: string)
    requires EscapeLabel(a) == EscapeLabel(b)
    ensures a == b
  {
    ThreePassesAreOne(a);
    ThreePassesAreOne(b);
    QuotedIsReadBack(a, "");
    QuotedIsReadBack(b, "");
  }
}
