/** Strings over any alphabet that are lists of named values: pieces joined by one mark,
    each divided by another. */
module FieldList {

  datatype Field<T> = Field(name: seq<T>, value: seq<T>)

  datatype Marks<T> = Marks(amp: T, eq: T)

  // ----- pieces

  function Join<T>(amp: T, pieces: seq<seq<T>>): seq<T> {
    if pieces == [] then []
    else if |pieces| == 1 then pieces[0]
    else pieces[0] + ([amp] + Join(amp, pieces[1..]))
  }

  ghost predicate Free<T>(mark: T, s: seq<T>) { forall i :: 0 <= i < |s| ==> s[i] != mark }

  /** The pieces of a string. */
  ghost predicate Split<T>(amp: T, q: seq<T>, pieces: seq<seq<T>>) {
    pieces != [] && Join(amp, pieces) == q && forall i :: 0 <= i < |pieces| ==> Free(amp, pieces[i])
  }

  lemma FirstMark<T>(amp: T, a: seq<T>, x: seq<T>)
    requires Free(amp, a)
    ensures var s := a + ([amp] + x);
            s[|a|] == amp && (forall k :: 0 <= k < |a| ==> s[k] != amp) && s[..|a|] == a && s[|a| + 1..] == x
  {
  }

  lemma SameHead<T>(amp: T, a: seq<T>, x: seq<T>, b: seq<T>, y: seq<T>)
    requires Free(amp, a) && Free(amp, b) && a + ([amp] + x) == b + ([amp] + y)
    ensures a == b && x == y
  {
    FirstMark(amp, a, x);
    FirstMark(amp, b, y);
  }

  lemma NotFree<T>(amp: T, a: seq<T>, b: seq<T>, y: seq<T>)
    requires a == b + ([amp] + y)
    ensures !Free(amp, a)
  {
    assert a[|b|] == amp;
  }

  /** A string has only one list of pieces. */
  lemma {:induction false} SplitUnique<T>(amp: T, q: seq<T>, p: seq<seq<T>>, r: seq<seq<T>>)
    requires Split(amp, q, p) && Split(amp, q, r)
    ensures p == r
    decreases |p|
  {
    if |p| > 1 && |r| > 1 {
      SameHead(amp, p[0], Join(amp, p[1..]), r[0], Join(amp, r[1..]));
      SplitUnique(amp, Join(amp, p[1..]), p[1..], r[1..]);
      assert p == [p[0]] + p[1..] && r == [r[0]] + r[1..];
    } else if |p| > 1 {
      NotFree(amp, q, p[0], Join(amp, p[1..]));
    } else if |r| > 1 {
      NotFree(amp, q, r[0], Join(amp, r[1..]));
    }
  }

  lemma JoinCons<T>(amp: T, first: seq<T>, rest: seq<seq<T>>)
    requires rest != []
    ensures Join(amp, [first] + rest) == first + ([amp] + Join(amp, rest))
  {
    assert ([first] + rest)[1..] == rest;
  }

  lemma {:induction false} JoinSnoc<T>(amp: T, pieces: seq<seq<T>>, last: seq<T>)
    ensures Join(amp, pieces + [last]) == if pieces == [] then last else Join(amp, pieces) + ([amp] + last)
  {
    if pieces != [] {
      var first, rest := pieces[0], pieces[1..];
      JoinSnoc(amp, rest, last);
      assert pieces + [last] == [first] + (rest + [last]) && pieces == [first] + rest;
      JoinCons(amp, first, rest + [last]);
      if rest != [] {
        JoinCons(amp, first, rest);
        assert first + ([amp] + (Join(amp, rest) + ([amp] + last))) == (first + ([amp] + Join(amp, rest))) + ([amp] + last);
      }
    }
  }

  /** A mark in the last piece divides it in two. */
  lemma {:induction false} Divide<T>(amp: T, done: seq<seq<T>>, a: seq<T>, b: seq<T>)
    ensures Join(amp, done + [a + ([amp] + b)]) == Join(amp, (done + [a]) + [b])
  {
    if done == [] {
      assert [] + [a + ([amp] + b)] == [a + ([amp] + b)];
      assert ([] + [a]) + [b] == [a] + [b];
      JoinCons(amp, a, [b]);
    } else {
      var first, rest := done[0], done[1..];
      Divide(amp, rest, a, b);
      assert done + [a + ([amp] + b)] == [first] + (rest + [a + ([amp] + b)]);
      assert (done + [a]) + [b] == [first] + ((rest + [a]) + [b]);
      JoinCons(amp, first, rest + [a + ([amp] + b)]);
      JoinCons(amp, first, (rest + [a]) + [b]);
    }
  }

  // ----- the field of a piece

  /** `e` is the position of the last `eq`, or -1 if there is none. */
  ghost predicate Ends<T>(eq: T, s: seq<T>, e: int) {
    -1 <= e < |s| && (e >= 0 ==> s[e] == eq) && forall i :: e < i < |s| ==> s[i] != eq
  }

  lemma {:induction false} EndExists<T>(eq: T, s: seq<T>)
    ensures exists e :: Ends(eq, s, e)
  {
    if s == [] {
      assert Ends(eq, s, -1);
    } else if s[|s| - 1] == eq {
      assert Ends(eq, s, |s| - 1);
    } else {
      EndExists(eq, s[..|s| - 1]);
      var e :| Ends(eq, s[..|s| - 1], e);
      assert Ends(eq, s, e);
    }
  }

  ghost function LastMark<T>(eq: T, s: seq<T>): (e: int)
    ensures Ends(eq, s, e)
  {
    EndExists(eq, s);
    var e :| Ends(eq, s, e); e
  }

  /** A piece without a name is dropped. */
  function FieldFrom<T>(name: seq<T>, value: seq<T>): seq<Field<T>> {
    if name == [] then [] else [Field(name, value)]
  }

  /** The last mark ends the name. */
  ghost function FieldOf<T>(eq: T, s: seq<T>): seq<Field<T>> {
    var e := LastMark(eq, s);
    if e < 0 then FieldFrom(s, []) else FieldFrom(s[..e], s[e + 1..])
  }

  lemma FieldOfIs<T>(eq: T, s: seq<T>, e: int)
    requires Ends(eq, s, e)
    ensures FieldOf(eq, s) == if e < 0 then FieldFrom(s, []) else FieldFrom(s[..e], s[e + 1..])
  {
    assert LastMark(eq, s) == e;
  }

  /** A piece without a mark is a name with an empty value; with one, the last mark divides
      it; and a piece with nothing before that is no field. */
  lemma PieceMeans<T>(eq: T, name: seq<T>, value: seq<T>)
    requires Free(eq, value)
    ensures FieldOf(eq, name + [eq] + value) == if name == [] then [] else [Field(name, value)]
    ensures FieldOf(eq, value) == if value == [] then [] else [Field(value, [])]
  {
    var s := name + [eq] + value;
    assert forall i :: |name| < i < |s| ==> s[i] == value[i - |name| - 1];
    FieldOfIs(eq, s, |name|);
    assert s[..|name|] == name && s[|name| + 1..] == value;
    FieldOfIs(eq, value, -1);
  }

  ghost function FieldsOf<T>(eq: T, pieces: seq<seq<T>>): seq<Field<T>> {
    if pieces == [] then [] else FieldsOf(eq, pieces[..|pieces| - 1]) + FieldOf(eq, pieces[|pieces| - 1])
  }

  lemma FieldsSnoc<T>(eq: T, pieces: seq<seq<T>>, last: seq<T>)
    ensures FieldsOf(eq, pieces + [last]) == FieldsOf(eq, pieces) + FieldOf(eq, last)
  {
    assert (pieces + [last])[..|pieces|] == pieces;
  }

  /** The fields that a string stands for. */
  ghost predicate Means<T(!new)>(m: Marks<T>, q: seq<T>, fields: seq<Field<T>>) {
    exists pieces :: Split(m.amp, q, pieces) && fields == FieldsOf(m.eq, pieces)
  }

  // ----- round trip

  ghost predicate GoodName<T>(m: Marks<T>, name: seq<T>) { name != [] && Free(m.amp, name) }

  /** Fields that survive. */
  ghost predicate Carried<T>(m: Marks<T>, f: Field<T>) {
    GoodName(m, f.name) && Free(m.amp, f.value) && Free(m.eq, f.value)
  }

  function Segment<T>(m: Marks<T>, f: Field<T>): seq<T> { f.name + [m.eq] + f.value }

  function Segments<T>(m: Marks<T>, fields: seq<Field<T>>): (s: seq<seq<T>>)
    ensures |s| == |fields|
  {
    seq(|fields|, i requires 0 <= i < |fields| => Segment(m, fields[i]))
  }

  lemma SegmentFree<T>(m: Marks<T>, f: Field<T>)
    requires m.amp != m.eq && Carried(m, f)
    ensures Free(m.amp, Segment(m, f))
  {
  }

  lemma SegmentField<T>(m: Marks<T>, f: Field<T>)
    requires Carried(m, f)
    ensures FieldOf(m.eq, Segment(m, f)) == [f]
  {
    var s, e := Segment(m, f), |f.name|;
    assert forall i :: e < i < |s| ==> s[i] == f.value[i - e - 1];
    FieldOfIs(m.eq, s, e);
    assert s[..e] == f.name && s[e + 1..] == f.value;
  }

  lemma {:induction false} SegmentsFields<T>(m: Marks<T>, fields: seq<Field<T>>)
    requires forall i :: 0 <= i < |fields| ==> Carried(m, fields[i])
    ensures FieldsOf(m.eq, Segments(m, fields)) == fields
  {
    if fields != [] {
      var n := |fields| - 1;
      SegmentsFields(m, fields[..n]);
      SegmentField(m, fields[n]);
      SegmentsSnoc(m, fields[..n], fields[n]);
      FieldsSnoc(m.eq, Segments(m, fields[..n]), Segment(m, fields[n]));
      assert fields == fields[..n] + [fields[n]];
    }
  }

  lemma SegmentsSnoc<T>(m: Marks<T>, fields: seq<Field<T>>, last: Field<T>)
    ensures Segments(m, fields + [last]) == Segments(m, fields) + [Segment(m, last)]
  {
  }

  /** Joined fields mean themselves, and nothing else. */
  lemma JoinedMeans<T(!new)>(m: Marks<T>, fields: seq<Field<T>>, meant: seq<Field<T>>)
    requires m.amp != m.eq && forall i :: 0 <= i < |fields| ==> Carried(m, fields[i])
    requires Means(m, Join(m.amp, Segments(m, fields)), meant)
    ensures meant == fields
  {
    var pieces :| Split(m.amp, Join(m.amp, Segments(m, fields)), pieces) && meant == FieldsOf(m.eq, pieces);
    if fields == [] {
      assert Join(m.amp, [[]]) == [];
      SplitUnique(m.amp, [], pieces, [[]]);
      FieldsSnoc(m.eq, [], []);
      FieldOfIs(m.eq, [], -1);
    } else {
      forall i | 0 <= i < |fields| ensures Free(m.amp, Segments(m, fields)[i]) {
        SegmentFree(m, fields[i]);
      }
      SplitUnique(m.amp, Join(m.amp, Segments(m, fields)), pieces, Segments(m, fields));
      SegmentsFields(m, fields);
    }
  }

  lemma FieldNameGood<T>(m: Marks<T>, s: seq<T>)
    requires Free(m.amp, s)
    ensures forall f :: f in FieldOf(m.eq, s) ==> GoodName(m, f.name)
  {
  }

  lemma {:induction false} FieldNamesGood<T>(m: Marks<T>, pieces: seq<seq<T>>)
    requires forall i :: 0 <= i < |pieces| ==> Free(m.amp, pieces[i])
    ensures forall f :: f in FieldsOf(m.eq, pieces) ==> GoodName(m, f.name)
  {
    if pieces != [] {
      var n := |pieces| - 1;
      FieldNamesGood(m, pieces[..n]);
      FieldNameGood(m, pieces[n]);
    }
  }

  /** No string means a field with a name that cannot be carried. */
  lemma MeansGoodNames<T(!new)>(m: Marks<T>, q: seq<T>, meant: seq<Field<T>>)
    requires Means(m, q, meant)
    ensures forall i :: 0 <= i < |meant| ==> GoodName(m, meant[i].name)
  {
    var pieces :| Split(m.amp, q, pieces) && meant == FieldsOf(m.eq, pieces);
    FieldNamesGood(m, pieces);
    forall i | 0 <= i < |meant| ensures GoodName(m, meant[i].name) {
      assert meant[i] in meant;
    }
  }

  // ----- lists as multisets

  function SumOf<T>(f: T -> nat, items: seq<T>): nat {
    if items == [] then 0 else f(items[0]) + SumOf(f, items[1..])
  }

  lemma {:induction false} SumWithout<T>(f: T -> nat, items: seq<T>, j: nat)
    requires j < |items|
    ensures SumOf(f, items) == f(items[j]) + SumOf(f, items[..j] + items[j + 1..])
    decreases j
  {
    if j == 0 {
      assert items[..0] + items[1..] == items[1..];
    } else {
      SumWithout(f, items[1..], j - 1);
      assert (items[..j] + items[j + 1..])[1..] == items[1..][..j - 1] + items[1..][j..];
    }
  }

  lemma MultisetWithout<T>(items: seq<T>, j: nat)
    requires j < |items|
    ensures multiset(items[..j] + items[j + 1..]) == multiset(items) - multiset{items[j]}
  {
    assert items == items[..j] + [items[j]] + items[j + 1..];
  }

  lemma FoundIn<T>(items: seq<T>, x: T) returns (j: nat)
    requires x in multiset(items)
    ensures j < |items| && items[j] == x
  {
    j :| 0 <= j < |items| && items[j] == x;
  }

  lemma RestPermutes<T>(a: seq<T>, b: seq<T>, j: nat)
    requires a != [] && multiset(a) == multiset(b) && j < |b| && b[j] == a[0]
    ensures multiset(a[1..]) == multiset(b[..j] + b[j + 1..])
  {
    MultisetWithout(a, 0);
    MultisetWithout(b, j);
    assert a[..0] + a[1..] == a[1..];
  }

  lemma NothingLeft<T>(b: seq<T>)
    requires multiset(b) == multiset{}
    ensures b == []
  {
    assert |b| == |multiset(b)|;
  }

  /** The order does not matter to a sum. */
  lemma {:induction false} SumOfPermutation<T>(f: T -> nat, a: seq<T>, b: seq<T>)
    requires multiset(a) == multiset(b)
    ensures SumOf(f, a) == SumOf(f, b)
    decreases |a|
  {
    if a == [] {
      NothingLeft(b);
    } else {
      assert a[0] in multiset(a);
      var j := FoundIn(b, a[0]);
      RestPermutes(a, b, j);
      SumOfPermutation(f, a[1..], b[..j] + b[j + 1..]);
      SumWithout(f, b, j);
    }
  }
}
