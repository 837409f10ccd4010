/** Query strings: fields joined by '&', each a name, '=' and a percent-encoded value. */
module QueryString {
  import opened FieldList
  import opened Percent

  // Creation takes the fields of an unordered multimap in some order of iteration; parsing
  // fills one.

  const MARKS := Marks('&', '=')

  function EncodeAll(fields: seq<Field<char>>): (r: seq<Field<char>>)
    ensures |r| == |fields|
  {
    seq(|fields|, i requires 0 <= i < |fields| => Field(fields[i].name, Encoded(fields[i].value)))
  }

  function DecodeAll(fields: seq<Field<char>>): (r: seq<Field<char>>)
    ensures |r| == |fields|
  {
    seq(|fields|, i requires 0 <= i < |fields| => Field(fields[i].name, Decoded(fields[i].value)))
  }

  // ----- creation

  lemma OneMore(amp: char, raw: seq<Field<char>>, n: nat)
    requires n < |raw|
    ensures Segments(MARKS, raw[..n + 1]) == Segments(MARKS, raw[..n]) + [Segment(MARKS, raw[n])]
    ensures Join(amp, Segments(MARKS, raw[..n + 1]))
         == if n == 0 then Segment(MARKS, raw[n]) else Join(amp, Segments(MARKS, raw[..n])) + ([amp] + Segment(MARKS, raw[n]))
  {
    assert Segments(MARKS, raw[..n + 1]) == Segments(MARKS, raw[..n]) + [Segment(MARKS, raw[n])];
    JoinSnoc(amp, Segments(MARKS, raw[..n]), Segment(MARKS, raw[n]));
  }

  method Create(fields: seq<Field<char>>) returns (result: string)
    ensures result == Join('&', Segments(MARKS, EncodeAll(fields)))
  {
    ghost var raw := EncodeAll(fields);
    result := "";
    var first, n := true, 0;
    while n < |fields|
      invariant 0 <= n <= |fields| && (first <==> n == 0)
      invariant result == Join('&', Segments(MARKS, raw[..n]))
    {
      OneMore('&', raw, n);
      var value := Percent.Encode(fields[n].value);
      var segment := fields[n].name + "=" + value;
      result := if first then segment else result + ("&" + segment);
      first := false;
      n := n + 1;
    }
    assert raw[..n] == raw;
  }

  // ----- parsing

  /** What a multimap holds once these fields have been put into it, values decoded. */
  function Content(fields: seq<Field<char>>): multiset<Field<char>> { multiset(DecodeAll(fields)) }

  lemma ContentAppend(a: seq<Field<char>>, b: seq<Field<char>>)
    ensures Content(a + b) == Content(a) + Content(b)
  {
    assert DecodeAll(a + b) == DecodeAll(a) + DecodeAll(b);
  }

  lemma ContentOfOne(f: Field<char>)
    ensures Content([f]) == multiset{Field(f.name, Decoded(f.value))}
  {
    assert DecodeAll([f]) == [Field(f.name, Decoded(f.value))];
  }

  /** The name is everything up to `nameEnd`, the value everything behind it, within the
      piece; -1 stands for npos. Nothing is emplaced without a name. */
  method ClosePiece(piece: string, nameEnd: int, before: multiset<Field<char>>, ghost done: seq<string>)
    returns (result: multiset<Field<char>>)
    requires Ends('=', piece, nameEnd) && before == Content(FieldsOf('=', done))
    ensures result == Content(FieldsOf('=', done + [piece]))
  {
    FieldOfIs('=', piece, nameEnd);
    FieldsSnoc('=', done, piece);
    ContentAppend(FieldsOf('=', done), FieldOf('=', piece));
    if nameEnd < 0 {
      result := Emplace(piece, "", before);
    } else {
      result := Emplace(piece[..nameEnd], piece[nameEnd + 1..], before);
    }
  }

  method Emplace(name: string, value: string, before: multiset<Field<char>>) returns (result: multiset<Field<char>>)
    ensures result == before + Content(FieldFrom(name, value))
  {
    if name == "" {
      return before;
    }
    var decoded := Percent.Decode(value);
    ContentOfOne(Field(name, value));
    result := before + multiset{Field(name, decoded)};
  }

  /** The parser at position `c` of the piece that starts at `namePos`, behind the pieces
      that are done. A `nameEnd` just before the piece stands for npos. */
  ghost predicate Scanned(q: string, done: seq<string>, namePos: nat, nameEnd: int, c: nat) {
    && namePos <= c <= |q|
    && Join('&', done + [q[namePos..]]) == q
    && (forall i :: 0 <= i < |done| ==> Free('&', done[i]))
    && Free('&', q[namePos..c]) && Ends('=', q[namePos..c], nameEnd - namePos)
  }

  lemma ScanStart(q: string)
    ensures Scanned(q, [], 0, -1, 0)
  {
    assert q[0..] == q && [] + [q] == [q];
  }

  lemma ScanOn(q: string, done: seq<string>, namePos: nat, nameEnd: int, c: nat)
    requires Scanned(q, done, namePos, nameEnd, c) && c < |q| && q[c] != '&'
    ensures Scanned(q, done, namePos, if q[c] == '=' then c else nameEnd, c + 1)
  {
    var s := q[namePos..c];
    assert q[namePos..c + 1] == s + [q[c]];
    assert forall i :: 0 <= i < |s| ==> (s + [q[c]])[i] == s[i];
  }

  lemma ScanAmp(q: string, done: seq<string>, namePos: nat, nameEnd: int, c: nat)
    requires Scanned(q, done, namePos, nameEnd, c) && c < |q| && q[c] == '&'
    ensures Scanned(q, done + [q[namePos..c]], c + 1, c, c + 1)
  {
    assert q[namePos..] == q[namePos..c] + (['&'] + q[c + 1..]);
    Divide('&', done, q[namePos..c], q[c + 1..]);
  }

  lemma ScanEnd(q: string, done: seq<string>, namePos: nat, nameEnd: int)
    requires Scanned(q, done, namePos, nameEnd, |q|)
    ensures Split('&', q, done + [q[namePos..]]) && Ends('=', q[namePos..], nameEnd - namePos)
  {
    assert q[namePos..|q|] == q[namePos..];
  }

  lemma PiecesMean(q: string, pieces: seq<string>)
    requires Split('&', q, pieces)
    ensures Means(MARKS, q, FieldsOf('=', pieces))
  {
  }

  /** One character of the loop: `&` closes a piece, `=` ends its name. */
  method ScanOne(q: string, c: nat, namePos: nat, nameEnd: int, before: multiset<Field<char>>, ghost done: seq<string>)
    returns (result: multiset<Field<char>>, nextPos: nat, nextEnd: int, ghost nextDone: seq<string>)
    requires c < |q| && Scanned(q, done, namePos, nameEnd, c) && before == Content(FieldsOf('=', done))
    ensures Scanned(q, nextDone, nextPos, nextEnd, c + 1) && result == Content(FieldsOf('=', nextDone))
  {
    if q[c] == '&' {
      ScanAmp(q, done, namePos, nameEnd, c);
      result := ClosePiece(q[namePos..c], nameEnd - namePos, before, done);
      nextDone := done + [q[namePos..c]];
      nextPos, nextEnd := c + 1, c;
    } else {
      ScanOn(q, done, namePos, nameEnd, c);
      result, nextPos, nextEnd, nextDone := before, namePos, if q[c] == '=' then c else nameEnd, done;
    }
  }

  /** The loop: everything up to the last piece, which starts at `namePos`. */
  method Scan(q: string) returns (result: multiset<Field<char>>, namePos: nat, nameEnd: int, ghost done: seq<string>)
    ensures Scanned(q, done, namePos, nameEnd, |q|) && result == Content(FieldsOf('=', done))
  {
    done, result := [], multiset{};
    namePos, nameEnd := 0, -1;
    var c: nat := 0;
    ScanStart(q);
    while c < |q|
      invariant c <= |q| && Scanned(q, done, namePos, nameEnd, c) && result == Content(FieldsOf('=', done))
      decreases |q| - c
    {
      result, namePos, nameEnd, done := ScanOne(q, c, namePos, nameEnd, result, done);
      c := c + 1;
    }
  }

  method Parse(q: string) returns (result: multiset<Field<char>>)
    ensures exists raw :: Means(MARKS, q, raw) && result == Content(raw)
  {
    var namePos, nameEnd;
    ghost var done;
    result, namePos, nameEnd, done := Scan(q);
    var piece := q[namePos..];
    ScanEnd(q, done, namePos, nameEnd);
    PiecesMean(q, done + [piece]);
    result := ClosePiece(piece, nameEnd - namePos, result, done);
  }

  // ----- round trip

  lemma EncodedFree(value: string)
    ensures Free('&', Encoded(value)) && Free('=', Encoded(value))
  {
    NoSeparators(value);
    forall i | 0 <= i < |Encoded(value)| ensures Encoded(value)[i] in Encoded(value) {}
  }

  lemma Meaning(fields: seq<Field<char>>, raw: seq<Field<char>>)
    requires forall i :: 0 <= i < |fields| ==> GoodName(MARKS, fields[i].name)
    requires Means(MARKS, Join('&', Segments(MARKS, EncodeAll(fields))), raw)
    ensures raw == EncodeAll(fields)
  {
    forall i | 0 <= i < |fields| ensures Carried(MARKS, EncodeAll(fields)[i]) {
      EncodedFree(fields[i].value);
    }
    JoinedMeans(MARKS, EncodeAll(fields), raw);
  }

  lemma RecodedIff(fields: seq<Field<char>>)
    ensures DecodeAll(EncodeAll(fields)) == fields <==> forall i :: 0 <= i < |fields| ==> PercentsSafe(fields[i].value)
  {
    var again := DecodeAll(EncodeAll(fields));
    forall i | 0 <= i < |fields| ensures again[i] == fields[i] <==> PercentsSafe(fields[i].value) {
      RoundTripIff(fields[i].value);
    }
  }

  function Signs(f: Field<char>): nat { Percents(f.value) }

  lemma {:induction false} SignsLost(fields: seq<Field<char>>)
    ensures var again := DecodeAll(EncodeAll(fields));
            && SumOf(Signs, again) <= SumOf(Signs, fields)
            && ((exists i :: 0 <= i < |fields| && !PercentsSafe(fields[i].value)) ==> SumOf(Signs, again) < SumOf(Signs, fields))
  {
    if fields != [] {
      SignsLost(fields[1..]);
      PercentsLost(fields[0].value);
      assert DecodeAll(EncodeAll(fields))[1..] == DecodeAll(EncodeAll(fields[1..]));
      if i :| 0 <= i < |fields| && !PercentsSafe(fields[i].value) {
        assert i > 0 ==> fields[1..][i - 1] == fields[i];
      }
    }
  }

  /** Not even as an unordered collection do fields come back with a value lost. */
  lemma SameCollection(fields: seq<Field<char>>)
    requires multiset(DecodeAll(EncodeAll(fields))) == multiset(fields)
    ensures forall i :: 0 <= i < |fields| ==> PercentsSafe(fields[i].value)
  {
    SignsLost(fields);
    SumOfPermutation(Signs, DecodeAll(EncodeAll(fields)), fields);
  }

  lemma BadNameMissing(fields: seq<Field<char>>, parsed: seq<Field<char>>, i: nat)
    requires i < |fields| && !GoodName(MARKS, fields[i].name)
    requires forall j :: 0 <= j < |parsed| ==> GoodName(MARKS, parsed[j].name)
    ensures multiset(parsed) != multiset(fields)
  {
    assert fields[i] in multiset(fields);
    assert fields[i] !in parsed;
  }

  ghost predicate Survives(f: Field<char>) { GoodName(MARKS, f.name) && PercentsSafe(f.value) }

  /** Parsing what was created, in whatever order, gives the same fields exactly when every
      name is non-empty and free of '&', and every value's per cent signs are safe. Names may
      contain '='. */
  method RoundTrip(fields: seq<Field<char>>) returns (query: string, parsed: multiset<Field<char>>)
    ensures parsed == multiset(fields) <==> forall i :: 0 <= i < |fields| ==> Survives(fields[i])
  {
    query := Create(fields);
    parsed := Parse(query);
    ghost var raw: seq<Field<char>> :| Means(MARKS, query, raw) && parsed == Content(raw);
    Compare(fields, query, raw);
  }

  /** Even the order is the same then. */
  lemma Compare(fields: seq<Field<char>>, query: string, raw: seq<Field<char>>)
    requires query == Join('&', Segments(MARKS, EncodeAll(fields))) && Means(MARKS, query, raw)
    ensures Content(raw) == multiset(fields) <==> forall i :: 0 <= i < |fields| ==> Survives(fields[i])
    ensures DecodeAll(raw) == fields <==> forall i :: 0 <= i < |fields| ==> Survives(fields[i])
  {
    if i :| 0 <= i < |fields| && !GoodName(MARKS, fields[i].name) {
      MeansGoodNames(MARKS, query, raw);
      BadNameMissing(fields, DecodeAll(raw), i);
    } else {
      Meaning(fields, raw);
      RecodedIff(fields);
      if Content(raw) == multiset(fields) {
        SameCollection(fields);
      }
    }
  }
}
