/** Strings as the Go code handles them: `strings.TrimSpace`, `strings.Split` on a
    one-character separator, and the join that undoes it. */
module Text {

  /** The Unicode White_Space code points that `strings.TrimSpace` removes. */
  predicate IsSpace(c: char) {
    || '\t' <= c <= '\r'
    || c in {' ', '\U{0085}', '\U{00A0}', '\U{1680}', '\U{2028}', '\U{2029}', '\U{202F}', '\U{205F}', '\U{3000}'}
    || '\U{2000}' <= c <= '\U{200A}'
  }

  predicate Trimmed(s: string) {
    s == [] || (!IsSpace(s[0]) && !IsSpace(s[|s| - 1]))
  }

  function TrimLeft(s: string): (r: string)
    ensures r == [] || !IsSpace(r[0])
    ensures r != [] ==> s != [] && r[|r| - 1] == s[|s| - 1]
  {
    if s != [] && IsSpace(s[0]) then TrimLeft(s[1..]) else s
  }

  function TrimRight(s: string): (r: string)
    ensures r == [] || !IsSpace(r[|r| - 1])
    ensures r <= s
  {
    if s != [] && IsSpace(s[|s| - 1]) then TrimRight(s[..|s| - 1]) else s
  }

  /** Trimming gives a trimmed string and leaves a trimmed one alone. */
  function TrimSpace(s: string): (r: string)
    ensures Trimmed(r)
    ensures Trimmed(s) ==> r == s
  {
    TrimRight(TrimLeft(s))
  }

  /** Those are the 25 code points with the White_Space property. */
  lemma SpacesAre(c: char)
    ensures IsSpace(c) <==> c as int in {
      0x09, 0x0A, 0x0B, 0x0C, 0x0D, 0x20, 0x85, 0xA0, 0x1680, 0x2000, 0x2001, 0x2002, 0x2003, 0x2004, 0x2005, 0x2006,
      0x2007, 0x2008, 0x2009, 0x200A, 0x2028, 0x2029, 0x202F, 0x205F, 0x3000}
  {
  }

  ghost predicate AllSpace(s: string) {
    forall i :: 0 <= i < |s| ==> IsSpace(s[i])
  }

  /** Of the string just the space around it goes. */
  ghost predicate TrimmedTo(s: string, r: string) {
    Trimmed(r) && exists left, right :: AllSpace(left) && AllSpace(right) && s == left + r + right
  }

  lemma {:induction false} TrimLeftDrops(s: string)
    ensures exists left :: AllSpace(left) && s == left + TrimLeft(s)
  {
    if s != [] && IsSpace(s[0]) {
      TrimLeftDrops(s[1..]);
      var left :| AllSpace(left) && s[1..] == left + TrimLeft(s[1..]);
      assert AllSpace([s[0]] + left) && s == [s[0]] + left + TrimLeft(s);
    } else {
      assert AllSpace([]) && s == [] + TrimLeft(s);
    }
  }

  lemma {:induction false} TrimRightDrops(s: string)
    ensures exists right :: AllSpace(right) && s == TrimRight(s) + right
  {
    if s != [] && IsSpace(s[|s| - 1]) {
      var n := |s| - 1;
      TrimRightDrops(s[..n]);
      var right :| AllSpace(right) && s[..n] == TrimRight(s[..n]) + right;
      assert AllSpace(right + [s[n]]) && s == TrimRight(s) + (right + [s[n]]);
    } else {
      assert AllSpace([]) && s == TrimRight(s) + [];
    }
  }

  /** Trimming takes the space around a string and nothing else, and that determines it. */
  lemma TrimSpaceIs(s: string, r: string)
    ensures TrimmedTo(s, TrimSpace(s))
    ensures TrimmedTo(s, r) ==> r == TrimSpace(s)
  {
    var t := TrimLeft(s);
    TrimLeftDrops(s);
    TrimRightDrops(t);
    var left :| AllSpace(left) && s == left + t;
    var right :| AllSpace(right) && t == TrimRight(t) + right;
    assert s == left + TrimSpace(s) + right;
    if TrimmedTo(s, r) {
      var before, after :| AllSpace(before) && AllSpace(after) && s == before + r + after;
      TrimmedOnce(left, TrimSpace(s), right, before, r, after);
    }
  }

  /** Where the text starts and ends, if there is any. */
  lemma TextBetween(s: string, a: string, r: string, b: string)
    requires AllSpace(a) && AllSpace(b) && Trimmed(r) && s == a + r + b
    ensures forall i :: 0 <= i < |a| || |a| + |r| <= i < |s| ==> IsSpace(s[i])
    ensures r != [] ==> !IsSpace(s[|a|]) && !IsSpace(s[|a| + |r| - 1])
    ensures r == s[|a|..|a| + |r|]
  {
  }

  lemma TrimmedOnce(a: string, r: string, b: string, c: string, q: string, d: string)
    requires AllSpace(a) && AllSpace(b) && AllSpace(c) && AllSpace(d) && Trimmed(r) && Trimmed(q)
    requires a + r + b == c + q + d
    ensures r == q
  {
    var s := a + r + b;
    TextBetween(s, a, r, b);
    TextBetween(s, c, q, d);
    if r != [] && q != [] {
      assert |a| == |c| && |a| + |r| == |c| + |q|;
    }
  }

  function Split(s: string, sep: char): (parts: seq<string>)
    ensures |parts| > 0
    ensures forall p :: p in parts ==> sep !in p
  {
    if s == [] then [[]]
    else if s[0] == sep then [[]] + Split(s[1..], sep)
    else
      var rest := Split(s[1..], sep);
      [[s[0]] + rest[0]] + rest[1..]
  }

  function Join(parts: seq<string>, sep: char): string
    requires |parts| > 0
  {
    if |parts| == 1 then parts[0] else parts[0] + [sep] + Join(parts[1..], sep)
  }

  /** A separator-free field in front is the first part. */
  lemma {:induction false} SplitField(field: string, rest: string, sep: char)
    requires sep !in field
    ensures Split(field + [sep] + rest, sep) == [field] + Split(rest, sep)
  {
    var s := field + [sep] + rest;
    if field == [] {
      assert s[1..] == rest;
    } else {
      assert s[1..] == field[1..] + [sep] + rest;
      SplitField(field[1..], rest, sep);
      assert [field[0]] + field[1..] == field;
    }
  }

  lemma {:induction false} SplitWhole(field: string, sep: char)
    requires sep !in field
    ensures Split(field, sep) == [field]
  {
    if field != [] {
      SplitWhole(field[1..], sep);
      assert [field[0]] + field[1..] == field;
    }
  }

  /** Splitting undoes joining, when no part holds the separator. */
  lemma {:induction false} SplitJoin(parts: seq<string>, sep: char)
    requires |parts| > 0
    requires forall p :: p in parts ==> sep !in p
    ensures Split(Join(parts, sep), sep) == parts
  {
    if |parts| == 1 {
      SplitWhole(parts[0], sep);
    } else {
      SplitField(parts[0], Join(parts[1..], sep), sep);
      SplitJoin(parts[1..], sep);
    }
  }

  /** Joining undoes splitting, always. */
  lemma {:induction false} JoinSplit(s: string, sep: char)
    ensures Join(Split(s, sep), sep) == s
  {
    if s != [] {
      JoinSplit(s[1..], sep);
      var rest := Split(s[1..], sep);
      if s[0] == sep {
        assert Split(s, sep)[1..] == rest;
      } else if |rest| > 1 {
        assert Split(s, sep)[1..] == rest[1..];
      }
    }
  }

  /** The order of strings that object listings and id columns are sorted by. */
  predicate Before(a: string, b: string) {
    if a == [] then b != [] else b != [] && (a[0] < b[0] || (a[0] == b[0] && Before(a[1..], b[1..])))
  }

  lemma {:induction false} BeforeIsTransitive(a: string, b: string, c: string)
    requires Before(a, b) && Before(b, c)
    ensures Before(a, c)
  {
    if a != [] && a[0] == b[0] && b[0] == c[0] {
      BeforeIsTransitive(a[1..], b[1..], c[1..]);
    }
  }

  lemma {:induction false} BeforeIsIrreflexive(a: string)
    ensures !Before(a, a)
  {
    if a != [] {
      BeforeIsIrreflexive(a[1..]);
    }
  }
}
