/** The array combinators `map`, `filter` and `join('')` of JavaScript, over
    Dafny sequences. */
module Seqs {

  /** `s.map(f)`: one result per element, in order. */
  function Map<T, U>(f: T -> U, s: seq<T>): (r: seq<U>)
    ensures |r| == |s|
    ensures forall i :: 0 <= i < |s| ==> r[i] == f(s[i])
  {
    if |s| == 0 then [] else [f(s[0])] + Map(f, s[1..])
  }

  /** `s.filter(p)`: the elements that satisfy `p`, and only those. */
  function Filter<T>(p: T -> bool, s: seq<T>): (r: seq<T>)
    ensures |r| <= |s|
    ensures forall i :: 0 <= i < |r| ==> r[i] in s && p(r[i])
    ensures forall i :: 0 <= i < |s| && p(s[i]) ==> s[i] in r
  {
    if |s| == 0 then []
    else if p(s[0]) then [s[0]] + Filter(p, s[1..])
    else Filter(p, s[1..])
  }

  /** Filtering works piecewise, so the kept elements stay in their original
      order and keep their multiplicity. */
  lemma {:induction false} FilterAppend<T>(p: T -> bool, a: seq<T>, b: seq<T>)
    ensures Filter(p, a + b) == Filter(p, a) + Filter(p, b)
  {
    if |a| == 0 {
      assert a + b == b;
    } else {
      assert (a + b)[1..] == a[1..] + b;
      FilterAppend(p, a[1..], b);
    }
  }

  lemma {:induction false} MapAppend<T, U>(f: T -> U, a: seq<T>, b: seq<T>)
    ensures Map(f, a + b) == Map(f, a) + Map(f, b)
  {
    if |a| == 0 {
      assert a + b == b;
    } else {
      assert (a + b)[1..] == a[1..] + b;
      MapAppend(f, a[1..], b);
    }
  }

  /** `ss.join('')`. */
  function Concat(ss: seq<string>): (r: string)
    ensures |ss| == 0 ==> r == ""
  {
    if |ss| == 0 then "" else ss[0] + Concat(ss[1..])
  }

  /** The text of element `i` sits, whole, between the text of the elements
      before it and the text of those after it. */
  lemma {:induction false} ConcatAt(ss: seq<string>, i: nat)
    requires i < |ss|
    ensures Concat(ss) == Concat(ss[..i]) + ss[i] + Concat(ss[i + 1..])
  {
    if i == 0 {
      assert ss[..0] == [];
    } else {
      ConcatAt(ss[1..], i - 1);
      assert ss[1..][..i - 1] == ss[1..i];
      assert ss[1..][i..] == ss[i + 1..];
      assert ss[..i] == [ss[0]] + ss[1..i];
      assert ss[..i][1..] == ss[1..i];
    }
  }

  /** The text `f` gives element `i` sits between the texts of the elements
      before it and those of the elements after it. */
  lemma ConcatMapAt<T>(f: T -> string, s: seq<T>, i: nat)
    requires i < |s|
    ensures Concat(Map(f, s)) == Concat(Map(f, s[..i])) + f(s[i]) + Concat(Map(f, s[i + 1..]))
  {
    var texts := Map(f, s);
    ConcatAt(texts, i);
    assert texts[..i] == Map(f, s[..i]);
    assert texts[i + 1..] == Map(f, s[i + 1..]);
  }

  lemma AppendAssoc<T>(a: seq<T>, b: seq<T>, c: seq<T>)
    ensures (a + b) + c == a + (b + c)
  {
  }
}
