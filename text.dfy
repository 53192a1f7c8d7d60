/** The string operations the bot applies to comma-separated watchlists and exchange error
    messages: Python's `s.split(',')`, `','.join(xs)`, `sorted` on strings (code-point
    order), and the substring test `t in s`. */
module Text {

  const Comma: char := ','

  predicate CommaFree(s: string) {
    forall i :: 0 <= i < |s| ==> s[i] != Comma
  }

  /** `s.split(',')`: always at least one piece; the pieces never contain a comma. */
  function Split(s: string): (r: seq<string>)
    ensures |r| >= 1
    ensures forall k :: 0 <= k < |r| ==> CommaFree(r[k])
  {
    if |s| == 0 then [""]
    else
      var rest := Split(s[1..]);
      if s[0] == Comma then [""] + rest
      else [[s[0]] + rest[0]] + rest[1..]
  }

  /** `','.join(xs)`. */
  function Join(xs: seq<string>): string {
    if |xs| == 0 then ""
    else if |xs| == 1 then xs[0]
    else xs[0] + [Comma] + Join(xs[1..])
  }

  lemma {:induction false} SplitCommaFree(p: string)
    requires CommaFree(p)
    ensures Split(p) == [p]
  {
    if |p| > 0 {
      SplitCommaFree(p[1..]);
      assert [p[0]] + p[1..] == p;
    }
  }

  /** Splitting a piece, a comma and a remainder yields the piece followed by the pieces
      of the remainder. */
  lemma {:induction false} SplitPrefix(p: string, rest: string)
    requires CommaFree(p)
    ensures Split(p + [Comma] + rest) == [p] + Split(rest)
  {
    if |p| == 0 {
      assert p + [Comma] + rest == [Comma] + rest;
      assert ([Comma] + rest)[1..] == rest;
    } else {
      SplitPrefix(p[1..], rest);
      var s := p + [Comma] + rest;
      assert s[0] == p[0];
      assert s[1..] == p[1..] + [Comma] + rest;
      assert [p[0]] + p[1..] == p;
    }
  }

  /** Joining comma-free pieces and splitting the result gives the pieces back. */
  lemma {:induction false} SplitJoin(xs: seq<string>)
    requires |xs| >= 1
    requires forall k :: 0 <= k < |xs| ==> CommaFree(xs[k])
    ensures Split(Join(xs)) == xs
  {
    if |xs| == 1 {
      SplitCommaFree(xs[0]);
    } else {
      SplitJoin(xs[1..]);
      SplitPrefix(xs[0], Join(xs[1..]));
      assert [xs[0]] + xs[1..] == xs;
    }
  }

  /** Splitting then joining gives the string back. */
  lemma {:induction false} JoinSplit(s: string)
    ensures Join(Split(s)) == s
  {
    if |s| > 0 {
      JoinSplit(s[1..]);
      var rest := Split(s[1..]);
      if s[0] == Comma {
        assert Join([""] + rest) == "" + [Comma] + Join(rest);
        assert [s[0]] + s[1..] == s;
      } else {
        JoinHead(s[0], rest);
        assert [s[0]] + s[1..] == s;
      }
    }
  }

  /** Prepending a character to the first piece prepends it to the joined string. */
  lemma {:induction false} JoinHead(c: char, xs: seq<string>)
    requires |xs| >= 1
    ensures Join([[c] + xs[0]] + xs[1..]) == [c] + Join(xs)
  {
    var ys := [[c] + xs[0]] + xs[1..];
    if |xs| == 1 {
      assert |ys| == 1 && Join(ys) == ys[0];
    } else {
      var tail := Join(xs[1..]);
      assert ys[1..] == xs[1..];
      assert Join(ys) == ys[0] + [Comma] + tail;
      assert Join(xs) == xs[0] + [Comma] + tail;
      assert ys[0] + [Comma] + tail == [c] + (xs[0] + [Comma] + tail);
    }
  }

  /** Python's `<` on strings: code-point lexicographic order. */
  predicate Less(a: string, b: string) {
    if |a| == 0 then |b| > 0
    else if |b| == 0 then false
    else if a[0] != b[0] then a[0] < b[0]
    else Less(a[1..], b[1..])
  }

  lemma {:induction false} LessIrreflexive(a: string)
    ensures !Less(a, a)
  {
    if |a| > 0 { LessIrreflexive(a[1..]); }
  }

  lemma {:induction false} LessTransitive(a: string, b: string, c: string)
    requires Less(a, b) && Less(b, c)
    ensures Less(a, c)
  {
    if |a| > 0 && |b| > 0 && |c| > 0 && a[0] == b[0] && b[0] == c[0] {
      LessTransitive(a[1..], b[1..], c[1..]);
    }
  }

  /** Distinct strings are ordered one way or the other. */
  lemma {:induction false} LessTotal(a: string, b: string)
    requires a != b
    ensures Less(a, b) || Less(b, a)
  {
    if |a| > 0 && |b| > 0 && a[0] == b[0] {
      assert a == [a[0]] + a[1..] && b == [b[0]] + b[1..];
      LessTotal(a[1..], b[1..]);
    }
  }

  lemma {:induction false} LessAsymmetric(a: string, b: string)
    requires Less(a, b)
    ensures !Less(b, a)
  {
    if |a| > 0 && |b| > 0 && a[0] == b[0] {
      LessAsymmetric(a[1..], b[1..]);
    }
  }

  ghost predicate StrictlySorted(xs: seq<string>) {
    forall i, j :: 0 <= i < j < |xs| ==> Less(xs[i], xs[j])
  }

  /** `x` added to a strictly sorted list, unless already present. */
  function InsertUnique(x: string, xs: seq<string>): (r: seq<string>)
    requires StrictlySorted(xs)
    ensures StrictlySorted(r)
    ensures Elements(r) == {x} + Elements(xs)
  {
    if |xs| == 0 then
      ElementsCons(x, xs);
      assert [x] + xs == [x];
      [x]
    else if x == xs[0] then xs
    else if Less(x, xs[0]) then
      forall j | 0 <= j < |xs| ensures Less(x, xs[j]) {
        if j > 0 { LessTransitive(x, xs[0], xs[j]); }
      }
      ElementsCons(x, xs);
      [x] + xs
    else
      var rest := InsertUnique(x, xs[1..]);
      LessTotal(x, xs[0]);
      forall i | 0 <= i < |rest| ensures Less(xs[0], rest[i]) {
        assert rest[i] in Elements(rest);
        if rest[i] != x {
          var j :| 0 <= j < |xs[1..]| && xs[1..][j] == rest[i];
          assert xs[j + 1] == rest[i];
        }
      }
      var r := [xs[0]] + rest;
      ElementsCons(xs[0], rest);
      ElementsCons(xs[0], xs[1..]);
      assert [xs[0]] + xs[1..] == xs;
      r
  }

  function Elements(xs: seq<string>): set<string> {
    set k | 0 <= k < |xs| :: xs[k]
  }

  lemma ElementsCons(x: string, xs: seq<string>)
    ensures Elements([x] + xs) == {x} + Elements(xs)
  {
    var r := [x] + xs;
    assert r[0] == x;
    forall y | y in Elements(xs) ensures y in Elements(r) {
      var k :| 0 <= k < |xs| && xs[k] == y;
      assert r[k + 1] == y;
    }
    forall y | y in Elements(r) ensures y == x || y in Elements(xs) {
      var k :| 0 <= k < |r| && r[k] == y;
      if k > 0 { assert xs[k - 1] == y; }
    }
  }

  /** `sorted(set(xs))`: the distinct elements of `xs` in increasing order. */
  function SortedUnique(xs: seq<string>): (r: seq<string>)
    ensures StrictlySorted(r)
    ensures Elements(r) == Elements(xs)
  {
    if |xs| == 0 then []
    else
      var r := InsertUnique(xs[0], SortedUnique(xs[1..]));
      ElementsCons(xs[0], xs[1..]);
      assert [xs[0]] + xs[1..] == xs;
      r
  }

  /** A strictly sorted list is determined by its set of elements. */
  lemma {:induction false} StrictlySortedUnique(xs: seq<string>, ys: seq<string>)
    requires StrictlySorted(xs) && StrictlySorted(ys)
    requires Elements(xs) == Elements(ys)
    ensures xs == ys
  {
    HeadElement(xs);
    HeadElement(ys);
    if |xs| > 0 && |ys| > 0 {
      assert xs[0] == ys[0] by {
        assert xs[0] in Elements(ys);
        assert ys[0] in Elements(xs);
        var i :| 0 <= i < |ys| && ys[i] == xs[0];
        var j :| 0 <= j < |xs| && xs[j] == ys[0];
        if xs[0] != ys[0] {
          assert i > 0 && j > 0;
          assert Less(ys[0], xs[0]) && Less(xs[0], ys[0]);
          LessAsymmetric(ys[0], xs[0]);
        }
      }
      TailElements(xs);
      TailElements(ys);
      StrictlySortedUnique(xs[1..], ys[1..]);
      assert xs == [xs[0]] + xs[1..] && ys == [ys[0]] + ys[1..];
    }
  }

  lemma HeadElement(xs: seq<string>)
    ensures |xs| > 0 ==> xs[0] in Elements(xs)
  {
  }

  /** The tail of a strictly sorted list holds every element but the head. */
  lemma TailElements(xs: seq<string>)
    requires StrictlySorted(xs) && |xs| > 0
    ensures Elements(xs[1..]) == Elements(xs) - {xs[0]}
  {
    forall y | y in Elements(xs[1..]) ensures y != xs[0] {
      var k :| 0 <= k < |xs[1..]| && xs[1..][k] == y;
      assert Less(xs[0], xs[k + 1]);
      LessIrreflexive(xs[0]);
    }
    forall y | y in Elements(xs) && y != xs[0] ensures y in Elements(xs[1..]) {
      var k :| 0 <= k < |xs| && xs[k] == y;
      assert xs[1..][k - 1] == y;
    }
  }

  /** `t in s` for strings: `t` occurs as a contiguous piece of `s`. */
  predicate Contains(s: string, t: string) {
    if |t| > |s| then false
    else s[..|t|] == t || (|s| > 0 && Contains(s[1..], t))
  }
}
