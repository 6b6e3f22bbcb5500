/** String operations the application borrows from JavaScript's String and
    Array prototypes: `trim`, `split` on one character, `join` and the global
    newline replacement `replace(/\n/g, '<br>')`. Strings are sequences of
    Unicode scalar values; `Utf16Length` gives the length JavaScript sees. */
module Text {

  /** The code points `String.prototype.trim` removes: ECMAScript's
      WhiteSpace (tab, vertical tab, form feed, space, no-break space,
      byte-order mark and the Zs category) and LineTerminator (LF, CR,
      LS, PS). */
  const Spaces: set<char> := {
    '\t', '\n', '\U{000B}', '\U{000C}', '\r', ' ', '\U{00A0}', '\U{1680}',
    '\U{2000}', '\U{2001}', '\U{2002}', '\U{2003}', '\U{2004}', '\U{2005}',
    '\U{2006}', '\U{2007}', '\U{2008}', '\U{2009}', '\U{200A}',
    '\U{2028}', '\U{2029}', '\U{202F}', '\U{205F}', '\U{3000}', '\U{FEFF}'
  }

  predicate IsSpace(c: char) {
    c in Spaces
  }

  /** Every character is whitespace: what `!s.trim()` tests. */
  predicate Blank(s: string) {
    forall i :: 0 <= i < |s| ==> IsSpace(s[i])
  }

  /** Neither end of `s` is whitespace. */
  predicate Trimmed(s: string) {
    s == [] || (!IsSpace(s[0]) && !IsSpace(s[|s| - 1]))
  }

  /** `s` with its leading whitespace removed. */
  function TrimStart(s: string): (r: string)
    ensures |r| <= |s|
    ensures r == [] || !IsSpace(r[0])
    ensures forall i :: 0 <= i < |s| - |r| ==> IsSpace(s[i])
  {
    if s != [] && IsSpace(s[0]) then TrimStart(s[1..]) else s
  }

  /** What TrimStart keeps is a suffix of its input. */
  lemma {:induction false} TrimStartIsSuffix(s: string)
    ensures TrimStart(s) == s[|s| - |TrimStart(s)|..]
  {
    if s != [] && IsSpace(s[0]) {
      TrimStartIsSuffix(s[1..]);
    }
  }

  /** `s` with its trailing whitespace removed. */
  function TrimEnd(s: string): (r: string)
    ensures |r| <= |s|
    ensures r == [] || !IsSpace(r[|r| - 1])
    ensures forall i :: |r| <= i < |s| ==> IsSpace(s[i])
  {
    if s != [] && IsSpace(s[|s| - 1]) then TrimEnd(s[..|s| - 1]) else s
  }

  /** What TrimEnd keeps is a prefix of its input. */
  lemma {:induction false} TrimEndIsPrefix(s: string)
    ensures TrimEnd(s) == s[..|TrimEnd(s)|]
  {
    if s != [] && IsSpace(s[|s| - 1]) {
      TrimEndIsPrefix(s[..|s| - 1]);
    }
  }

  /** `s.trim()`: `s` without its leading and its trailing whitespace;
      empty exactly when `s` is blank. */
  function Trim(s: string): (r: string)
    ensures Trimmed(r)
    ensures r == [] <==> Blank(s)
    ensures |r| <= |s|
  {
    var t := TrimStart(s);
    var r := TrimEnd(t);
    TrimStartIsSuffix(s);
    TrimEndIsPrefix(t);
    assert r != [] ==> r[0] == t[0];
    assert r == [] ==> Blank(s) by {
      if r == [] {
        forall i | 0 <= i < |s| ensures IsSpace(s[i]) {
          if i >= |s| - |t| {
            assert s[i] == t[i - (|s| - |t|)];
          }
        }
      }
    }
    r
  }

  /** TrimStart splits `s` into leading whitespace and what it keeps. */
  lemma TrimStartSplits(s: string)
    ensures var t := TrimStart(s); var a := s[..|s| - |t|];
      s == a + t && Blank(a)
  {
    var t := TrimStart(s);
    var a := s[..|s| - |t|];
    TrimStartIsSuffix(s);
    forall i | 0 <= i < |a| ensures IsSpace(a[i]) {
      assert a[i] == s[i];
    }
  }

  /** TrimEnd splits `t` into what it keeps and trailing whitespace. */
  lemma TrimEndSplits(t: string)
    ensures var r := TrimEnd(t); var b := t[|r|..];
      t == r + b && Blank(b)
  {
    var r := TrimEnd(t);
    var b := t[|r|..];
    TrimEndIsPrefix(t);
    forall i | 0 <= i < |b| ensures IsSpace(b[i]) {
      assert b[i] == t[|r| + i];
    }
  }

  /** The trim is the middle of `s`: what precedes it and what follows it
      are whitespace, and the three pieces make up `s`. */
  lemma TrimIsMiddle(s: string)
    ensures exists a, b :: s == a + Trim(s) + b && Blank(a) && Blank(b)
  {
    var t := TrimStart(s);
    var r := TrimEnd(t);
    TrimStartSplits(s);
    TrimEndSplits(t);
    var a, b := s[..|s| - |t|], t[|r|..];
    assert s == a + r + b;
  }

  /** `s.length` in JavaScript: the number of UTF-16 code units, two for a
      code point above U+FFFF and one for any other. */
  function Utf16Length(s: string): (n: nat)
    ensures |s| <= n <= 2 * |s|
  {
    if s == [] then 0
    else (if s[0] >= '\U{10000}' then 2 else 1) + Utf16Length(s[1..])
  }

  /** Text made only of Basic Multilingual Plane code points has as many
      UTF-16 code units as characters. */
  lemma {:induction false} Utf16LengthOfBmp(s: string)
    requires forall i :: 0 <= i < |s| ==> s[i] < '\U{10000}'
    ensures Utf16Length(s) == |s|
  {
    if s != [] {
      Utf16LengthOfBmp(s[1..]);
    }
  }

  /** The code units of a concatenation are those of its parts. */
  lemma {:induction false} Utf16LengthAppend(a: string, b: string)
    ensures Utf16Length(a + b) == Utf16Length(a) + Utf16Length(b)
  {
    if a != [] {
      assert (a + b)[0] == a[0];
      assert (a + b)[1..] == a[1..] + b;
      Utf16LengthAppend(a[1..], b);
    } else {
      assert a + b == b;
    }
  }

  /** Trimming twice is trimming once. */
  lemma TrimIdempotent(s: string)
    ensures Trim(Trim(s)) == Trim(s)
  {
    TrimmedIsFixed(Trim(s));
  }

  /** A string is its own trim exactly when neither end is whitespace. */
  lemma {:induction false} TrimmedIsFixed(s: string)
    ensures Trim(s) == s <==> Trimmed(s)
  {
    if Trimmed(s) && s != [] {
      assert TrimStart(s) == s;
      assert TrimEnd(s) == s;
    }
  }

  /** Text with a non-space character at each end is its own trim and is
      not blank. */
  lemma TrimmedKept(s: string)
    requires s != [] && Trimmed(s)
    ensures Trim(s) == s && !Blank(s)
  {
    TrimmedIsFixed(s);
  }

  /** Whitespace in front of a string does not change its trim. */
  lemma {:induction false} TrimSkipsLeadingSpace(w: string, s: string)
    requires Blank(w)
    ensures Trim(w + s) == Trim(s)
  {
    TrimStartSkipsSpace(w, s);
  }

  /** Leading whitespace is all that TrimStart drops. */
  lemma {:induction false} TrimStartSkipsSpace(w: string, s: string)
    requires Blank(w)
    ensures TrimStart(w + s) == TrimStart(s)
  {
    if w != [] {
      assert (w + s)[0] == w[0];
      assert (w + s)[1..] == w[1..] + s;
      TrimStartSkipsSpace(w[1..], s);
    } else {
      assert w + s == s;
    }
  }

  /** A character absent from `s` is absent from its trim. */
  lemma TrimKeepsAbsent(s: string, c: char)
    requires c !in s
    ensures c !in Trim(s)
  {
    TrimStartKeepsAbsent(s, c);
    TrimEndKeepsAbsent(TrimStart(s), c);
  }

  lemma {:induction false} TrimStartKeepsAbsent(s: string, c: char)
    requires c !in s
    ensures c !in TrimStart(s)
  {
    if s != [] && IsSpace(s[0]) {
      assert c !in s[1..];
      TrimStartKeepsAbsent(s[1..], c);
    }
  }

  lemma {:induction false} TrimEndKeepsAbsent(s: string, c: char)
    requires c !in s
    ensures c !in TrimEnd(s)
  {
    if s != [] && IsSpace(s[|s| - 1]) {
      assert c !in s[..|s| - 1];
      TrimEndKeepsAbsent(s[..|s| - 1], c);
    }
  }

  /** `s.split(sep)` for a one-character separator: the pieces between
      separators, in order, empty ones included; never an empty list. */
  function Split(s: string, sep: char): (parts: seq<string>)
    ensures |parts| >= 1
    ensures forall p :: p in parts ==> sep !in p
  {
    if s == [] then [[]]
    else
      var rest := Split(s[1..], sep);
      if s[0] == sep then [[]] + rest
      else [[s[0]] + rest[0]] + rest[1..]
  }

  /** `parts.join(sep)`: the parts with `sep` between neighbours. */
  function JoinWith(parts: seq<string>, sep: string): string {
    if parts == [] then []
    else if |parts| == 1 then parts[0]
    else parts[0] + sep + JoinWith(parts[1..], sep)
  }

  /** Joining after a separator-prefixed first part. */
  lemma JoinConsPrefix(x: string, p: string, ps: seq<string>, sep: string)
    ensures JoinWith([x + p] + ps, sep) == x + JoinWith([p] + ps, sep)
  {
    if ps != [] {
      assert ([x + p] + ps)[1..] == ps;
      assert ([p] + ps)[1..] == ps;
    }
  }

  /** Joining a list whose first part is empty starts with the separator. */
  lemma JoinEmptyHead(ps: seq<string>, sep: string)
    requires ps != []
    ensures JoinWith([[]] + ps, sep) == sep + JoinWith(ps, sep)
  {
    assert ([[]] + ps)[1..] == ps;
  }

  /** Splitting and joining back with the same separator is the identity. */
  lemma {:induction false} SplitJoin(s: string, sep: char)
    ensures JoinWith(Split(s, sep), [sep]) == s
  {
    if s != [] {
      var rest := Split(s[1..], sep);
      SplitJoin(s[1..], sep);
      if s[0] == sep {
        JoinEmptyHead(rest, [sep]);
      } else {
        JoinConsPrefix([s[0]], rest[0], rest[1..], [sep]);
        assert [rest[0]] + rest[1..] == rest;
      }
      assert s == [s[0]] + s[1..];
    }
  }

  /** Text without the separator glues onto the first piece. */
  lemma {:induction false} SplitGluesPrefix(w: string, x: string, sep: char)
    requires sep !in w
    ensures Split(w + x, sep) == [w + Split(x, sep)[0]] + Split(x, sep)[1..]
  {
    if w != [] {
      assert (w + x)[0] == w[0];
      assert (w + x)[1..] == w[1..] + x;
      SplitGluesPrefix(w[1..], x, sep);
      var parts := Split(x, sep);
      var rest := Split(w[1..] + x, sep);
      assert rest[0] == w[1..] + parts[0] && rest[1..] == parts[1..];
      assert w[0] != sep;
      assert Split(w + x, sep) == [[w[0]] + rest[0]] + rest[1..];
      assert [w[0]] + (w[1..] + parts[0]) == w + parts[0];
    } else {
      assert w + x == x;
      assert w + Split(x, sep)[0] == Split(x, sep)[0];
      assert Split(x, sep) == [Split(x, sep)[0]] + Split(x, sep)[1..];
    }
  }

  /** A leading separator opens an empty first piece. */
  lemma SplitAtSeparator(x: string, sep: char)
    ensures Split([sep] + x, sep) == [[]] + Split(x, sep)
  {
    assert ([sep] + x)[1..] == x;
  }

  /** `s.replace(/\n/g, '<br>')`: every line feed becomes `<br>`. */
  function NewlinesToBreaks(s: string): (r: string)
    ensures '\n' !in r
  {
    if s == [] then []
    else (if s[0] == '\n' then "<br>" else [s[0]]) + NewlinesToBreaks(s[1..])
  }

  /** The rewrite keeps the text between line feeds as it is and in order:
      it is the line-feed split joined with `<br>` instead of `\n`. */
  lemma {:induction false} BreaksAreJoinedLines(s: string)
    ensures NewlinesToBreaks(s) == JoinWith(Split(s, '\n'), "<br>")
  {
    if s != [] {
      var rest := Split(s[1..], '\n');
      BreaksAreJoinedLines(s[1..]);
      if s[0] == '\n' {
        JoinEmptyHead(rest, "<br>");
      } else {
        JoinConsPrefix([s[0]], rest[0], rest[1..], "<br>");
        assert [rest[0]] + rest[1..] == rest;
      }
    }
  }

  /** Text without line feeds is not changed by the rewrite. */
  lemma {:induction false} BreaksKeepPlainText(s: string)
    requires '\n' !in s
    ensures NewlinesToBreaks(s) == s
  {
    if s != [] {
      BreaksKeepPlainText(s[1..]);
      assert s == [s[0]] + s[1..];
    }
  }
}
