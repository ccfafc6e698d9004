/** The parts of Go's strings and unicode packages that the subscription code uses. */
module Text {

  /** unicode.IsSpace: the characters with Unicode's White_Space property. */
  predicate IsSpace(c: char)
  {
    c == '\t' || c == '\n' || c == '\U{0B}' || c == '\U{0C}' || c == '\r' || c == ' '
    || c == '\U{85}' || c == '\U{A0}' || c == '\U{1680}'
    || ('\U{2000}' <= c <= '\U{200A}')
    || c == '\U{2028}' || c == '\U{2029}' || c == '\U{202F}' || c == '\U{205F}' || c == '\U{3000}'
  }

  /** Drops the leading white space of `s`. */
  function TrimLeft(s: string): (r: string)
    ensures |r| <= |s| && r == s[|s| - |r|..]
    ensures forall k :: 0 <= k < |s| - |r| ==> IsSpace(s[k])
    ensures r != [] ==> !IsSpace(r[0])
  {
    if s != [] && IsSpace(s[0]) then TrimLeft(s[1..]) else s
  }

  /** Drops the trailing white space of `s`. */
  function TrimRight(s: string): (r: string)
    ensures |r| <= |s| && r == s[..|r|]
    ensures forall k :: |r| <= k < |s| ==> IsSpace(s[k])
    ensures r != [] ==> !IsSpace(r[|r| - 1])
  {
    if s != [] && IsSpace(s[|s| - 1]) then TrimRight(s[..|s| - 1]) else s
  }

  /** strings.TrimSpace: `s` without its leading and trailing white space. */
  function TrimSpace(s: string): (r: string)
    ensures r == [] <==> forall k :: 0 <= k < |s| ==> IsSpace(s[k])
    ensures r != [] ==> !IsSpace(r[0]) && !IsSpace(r[|r| - 1])
    ensures var n := |s| - |TrimLeft(s)|;
      && n + |r| <= |s| && r == s[n..n + |r|]
      && (forall k :: 0 <= k < n ==> IsSpace(s[k]))
      && (forall k :: n + |r| <= k < |s| ==> IsSpace(s[k]))
  {
    var l := TrimLeft(s);
    var r := TrimRight(l);
    r
  }

  /** Joins the pieces with a newline between each two, as strings.Join(ps, "\n"). */
  function Join(ps: seq<string>): string
    requires |ps| >= 1
  {
    if |ps| == 1 then ps[0] else ps[0] + "\n" + Join(ps[1..])
  }

  /** strings.Split(s, "\n"): the pieces between newlines; an empty `s` gives one empty piece. */
  function Split(s: string): (r: seq<string>)
    ensures |r| >= 1
    ensures forall k :: 0 <= k < |r| ==> '\n' !in r[k]
    ensures Join(r) == s
  {
    if s == [] then
      [[]]
    else
      var rest := Split(s[1..]);
      if s[0] == '\n' then
        [[]] + rest
      else
        var r := [[s[0]] + rest[0]] + rest[1..];
        assert r[1..] == rest[1..];
        assert Join(r) == [s[0]] + Join(rest);
        r
  }

  /** Splitting undoes joining when no piece holds a newline. */
  lemma {:induction false} SplitJoin(ps: seq<string>)
    requires |ps| >= 1
    requires forall k :: 0 <= k < |ps| ==> '\n' !in ps[k]
    ensures Split(Join(ps)) == ps
  {
    if |ps| == 1 {
      SplitNoNewline(ps[0]);
    } else {
      SplitJoin(ps[1..]);
      SplitAppend(ps[0], Join(ps[1..]));
      assert [ps[0]] + ps[1..] == ps;
    }
  }

  lemma {:induction false} SplitNoNewline(s: string)
    requires '\n' !in s
    ensures Split(s) == [s]
  {
    if s != [] {
      SplitNoNewline(s[1..]);
    }
  }

  /** A piece without a newline, then a newline, then `t`, splits into that piece and the pieces of `t`. */
  lemma {:induction false} SplitAppend(p: string, t: string)
    requires '\n' !in p
    ensures Split(p + "\n" + t) == [p] + Split(t)
  {
    if p == [] {
      assert p + "\n" + t == "\n" + t;
      assert ("\n" + t)[1..] == t;
    } else {
      assert (p + "\n" + t)[1..] == p[1..] + "\n" + t;
      SplitAppend(p[1..], t);
      assert [p[0]] + p[1..] == p;
    }
  }

  /** unicode.ToLower restricted to ASCII: upper-case ASCII letters map to lower case, all else is kept. */
  function ToLowerChar(c: char): (l: char)
  {
    if 'A' <= c <= 'Z' then (c as int + 32) as char else c
  }

  /** strings.ToLower, with the case mapping of ToLowerChar. */
  function ToLower(s: string): (r: string)
    ensures |r| == |s|
    ensures forall k :: 0 <= k < |s| ==> r[k] == ToLowerChar(s[k])
  {
    seq(|s|, k requires 0 <= k < |s| => ToLowerChar(s[k]))
  }

  /** Lower-casing twice is lower-casing once. */
  lemma ToLowerIdempotent(s: string)
    ensures ToLower(ToLower(s)) == ToLower(s)
  {
  }

  /** Go's `<` on strings: lexicographic order, a proper prefix coming first. Code-point
      order on characters agrees with byte order on their UTF-8 encodings. */
  predicate Less(a: string, b: string)
  {
    if a == [] then b != []
    else if b == [] then false
    else if a[0] != b[0] then a[0] < b[0]
    else Less(a[1..], b[1..])
  }

  lemma {:induction false} LessIrreflexive(a: string)
    ensures !Less(a, a)
  {
    if a != [] {
      LessIrreflexive(a[1..]);
    }
  }

  lemma {:induction false} LessAsymmetric(a: string, b: string)
    requires Less(a, b)
    ensures !Less(b, a)
  {
    if a != [] && b != [] && a[0] == b[0] {
      LessAsymmetric(a[1..], b[1..]);
    }
  }

  lemma {:induction false} LessTransitive(a: string, b: string, c: string)
    requires Less(a, b) && Less(b, c)
    ensures Less(a, c)
  {
    if a != [] && a[0] == b[0] && b[0] == c[0] {
      LessTransitive(a[1..], b[1..], c[1..]);
    }
  }

  lemma {:induction false} LessTotal(a: string, b: string)
    requires a != b
    ensures Less(a, b) || Less(b, a)
  {
    if a != [] && b != [] && a[0] == b[0] {
      assert a == [a[0]] + a[1..] && b == [b[0]] + b[1..];
      LessTotal(a[1..], b[1..]);
    }
  }
}
