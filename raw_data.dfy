/** The file importers of source/raw-data.ts: the `RawData` object that turns
    the text of a CSV file into a spectrum, and the rules `xmlToArray` applies
    to an already parsed XML document.

    A CSV file is either a histogram (`fileType` 1: one record per line, the
    count in column `valueIndex`) or a chronological stream of events (one
    channel number per delimited token, counted into a histogram). The pure
    functions say what one call gives; the class does it the way the source
    does, with `checkLines` updating the sticky value index as the filter
    runs. */
module RawData {
  import opened Wrappers
  import opened JsString
  import opened JsNumber
  import opened Histogram

  /** A JS number coming out of `parseFloat`: a value, or NaN (None). */
  type Number = Option<real>

  // ---------------------------------------------------------------------
  // CSV records

  /** The trimmed first field of the record is a number. */
  predicate Numeric(delim: string, rec: string)
    requires |delim| > 0
  {
    ParseFloat(Trim(Split(rec, delim)[0])).Some?
  }

  /** The value index after `checkLines` saw the record: a numeric one-field
      record forces it to 0 (the work-around for one-column files). */
  function NextIndex(delim: string, idx: nat, rec: string): nat
    requires |delim| > 0
  {
    if OneNumber(delim, rec) then 0 else idx
  }

  /** A numeric record with a single field. */
  predicate OneNumber(delim: string, rec: string)
    requires |delim| > 0
  {
    Numeric(delim, rec) && |Split(rec, delim)| == 1
  }

  /** `checkLines`' answer: the first field is a number and the record has a
      field at the value index as it now stands. */
  predicate Keeps(delim: string, idx: nat, rec: string)
    requires |delim| > 0
  {
    Numeric(delim, rec) && |Split(rec, delim)| > NextIndex(delim, idx, rec)
  }

  /** What a filter pass leaves: the kept records, and the value index after
      the last record. */
  datatype Scan = Scan(kept: seq<string>, last: nat)

  /** `records.filter(checkLines)` starting from value index `idx`. */
  function Filter(delim: string, idx: nat, recs: seq<string>): Scan
    requires |delim| > 0
    decreases |recs|
  {
    if |recs| == 0 then Scan([], idx)
    else
      var rest := Filter(delim, NextIndex(delim, idx, recs[0]), recs[1..]);
      if Keeps(delim, idx, recs[0]) then Scan([recs[0]] + rest.kept, rest.last) else rest
  }

  /** `parseLines`: parseFloat of the trimmed field at the value index. */
  function ParseLine(delim: string, idx: nat, rec: string): Number
    requires |delim| > 0 && idx < |Split(rec, delim)|
  {
    ParseFloat(Trim(Split(rec, delim)[idx]))
  }

  /** Every record has a field at index `idx`. */
  predicate HasField(delim: string, idx: nat, recs: seq<string>)
    requires |delim| > 0
  {
    forall k :: 0 <= k < |recs| ==> idx < |Split(recs[k], delim)|
  }

  /** `records.map(parseLines)`. */
  function ParseAll(delim: string, idx: nat, recs: seq<string>): (r: seq<Number>)
    requires |delim| > 0 && HasField(delim, idx, recs)
    ensures |r| == |recs|
    decreases |recs|
  {
    if |recs| == 0 then []
    else
      assert HasField(delim, idx, recs[1..]) by {
        forall k | 0 <= k < |recs| - 1 ensures idx < |Split(recs[1..][k], delim)| {
          assert recs[1..][k] == recs[k + 1];
        }
      }
      [ParseLine(delim, idx, recs[0])] + ParseAll(delim, idx, recs[1..])
  }

  /** The values from record `i` on: record `i`'s value, then the rest. */
  lemma ParseAllStep(delim: string, idx: nat, recs: seq<string>, i: nat)
    requires |delim| > 0 && i < |recs| && HasField(delim, idx, recs[i..])
    ensures HasField(delim, idx, recs[i + 1..])
    ensures ParseAll(delim, idx, recs[i..]) == [ParseLine(delim, idx, recs[i])] + ParseAll(delim, idx, recs[i + 1..])
  {
    var rest := recs[i..];
    ParseAllTail(delim, idx, rest);
    assert rest[1..] == recs[i + 1..] && rest[0] == recs[i];
  }

  /** Value `k` is the parsed field of record `k`. */
  lemma {:induction false} ParseAllAt(delim: string, idx: nat, recs: seq<string>, k: nat)
    requires |delim| > 0 && HasField(delim, idx, recs) && k < |recs|
    ensures ParseAll(delim, idx, recs)[k] == ParseLine(delim, idx, recs[k])
    decreases k
  {
    if k > 0 {
      ParseAllTail(delim, idx, recs);
      ParseAllAt(delim, idx, recs[1..], k - 1);
    }
  }

  /** Dropping the first record drops the first value. */
  lemma ParseAllTail(delim: string, idx: nat, recs: seq<string>)
    requires |delim| > 0 && HasField(delim, idx, recs) && |recs| > 0
    ensures HasField(delim, idx, recs[1..])
    ensures ParseAll(delim, idx, recs)[1..] == ParseAll(delim, idx, recs[1..])
  {
    forall k | 0 <= k < |recs| - 1 ensures idx < |Split(recs[1..][k], delim)| {
      assert recs[1..][k] == recs[k + 1];
    }
  }

  /** An event that is an index of an `n`-cell array: a whole number in
      0..n-1. Anything else (NaN, a negative or a fractional number) is a
      property name outside the array's cells. */
  predicate IsChannel(e: Number, n: nat) {
    e.Some? && e.value == e.value.Floor as real && 0 <= e.value.Floor < n
  }

  /** The events that land in a cell of an `n`-cell histogram, as cell numbers, in order. */
  function Channels(events: seq<Number>, n: nat): (r: seq<int>)
    ensures InRange(r, n) && |r| <= |events|
    decreases |events|
  {
    if |events| == 0 then []
    else (if IsChannel(events[0], n) then [events[0].value.Floor] else []) + Channels(events[1..], n)
  }

  /** What `csvToArray` gives: the values of a histogram file, or the
      histogram counted from a chronological stream. */
  datatype CsvResult = Values(values: seq<Number>) | Counts(counts: seq<int>)

  /** The records of a file: its lines for a histogram file, its delimited
      tokens for a chronological stream. */
  function Records(delim: string, fileType: int, data: string): seq<string>
    requires |delim| > 0
  {
    if fileType == 1 then Split(data, "\n") else Split(data, delim)
  }

  /** `csvToArray(data)` on an object with these settings. The value index
      starts from `valueIndex` whatever earlier calls left. */
  function CsvImport(valueIndex: nat, delim: string, fileType: int, adc: nat, data: string): CsvResult
    requires |delim| > 0
  {
    var sc := Filter(delim, valueIndex, Records(delim, fileType, data));
    FilterKept(delim, valueIndex, Records(delim, fileType, data));
    var values := ParseAll(delim, sc.last, sc.kept);
    if fileType == 1 then Values(values) else Counts(Merge(Zeros(adc), Channels(values, adc)))
  }

  /** The values of the numeric tokens of a stream, in order. */
  function TokenValues(tokens: seq<string>): (r: seq<Number>)
    ensures forall e :: e in r ==> e.Some?
    decreases |tokens|
  {
    if |tokens| == 0 then []
    else
      var v := ParseFloat(Trim(tokens[0]));
      (if v.Some? then [v] else []) + TokenValues(tokens[1..])
  }

  // ---------------------------------------------------------------------
  // Properties of the CSV importer

  lemma FilterCons(delim: string, idx: nat, recs: seq<string>)
    requires |delim| > 0 && |recs| > 0
    ensures var rest := Filter(delim, NextIndex(delim, idx, recs[0]), recs[1..]);
            Filter(delim, idx, recs) == if Keeps(delim, idx, recs[0]) then Scan([recs[0]] + rest.kept, rest.last) else rest
  {
  }

  /** One pass of the filter loop keeps its invariant. */
  lemma FilterLoopStep(delim: string, kept: seq<string>, idx: nat, recs: seq<string>, i: nat, spec: Scan)
    requires |delim| > 0 && i < |recs|
    requires kept + Filter(delim, idx, recs[i..]).kept == spec.kept && Filter(delim, idx, recs[i..]).last == spec.last
    ensures var rest := Filter(delim, NextIndex(delim, idx, recs[i]), recs[i + 1..]);
            && (if Keeps(delim, idx, recs[i]) then kept + [recs[i]] else kept) + rest.kept == spec.kept
            && rest.last == spec.last
  {
    var xs := recs[i..];
    assert xs[0] == recs[i] && xs[1..] == recs[i + 1..];
    var rest := Filter(delim, NextIndex(delim, idx, recs[i]), recs[i + 1..]);
    FilterCons(delim, idx, xs);
    if Keeps(delim, idx, recs[i]) {
      assert kept + ([recs[i]] + rest.kept) == (kept + [recs[i]]) + rest.kept;
    }
  }

  /** The value index only ever falls to 0: it ends as it began unless a
      numeric one-field record came by, and then it ends at 0. */
  lemma {:induction false} FilterIndex(delim: string, idx: nat, recs: seq<string>)
    requires |delim| > 0
    ensures var last := Filter(delim, idx, recs).last;
            && (last == idx || last == 0)
            && (last == 0 <==> idx == 0 || exists r :: r in recs && OneNumber(delim, r))
    decreases |recs|
  {
    if |recs| > 0 {
      FilterIndex(delim, NextIndex(delim, idx, recs[0]), recs[1..]);
      FilterIndexStep(delim, idx, recs);
    }
  }

  /** FilterIndex for one more record in front. */
  lemma FilterIndexStep(delim: string, idx: nat, recs: seq<string>)
    requires |delim| > 0 && |recs| > 0
    requires var next := NextIndex(delim, idx, recs[0]);
             var last := Filter(delim, next, recs[1..]).last;
             && (last == next || last == 0)
             && (last == 0 <==> next == 0 || exists r :: r in recs[1..] && OneNumber(delim, r))
    ensures var last := Filter(delim, idx, recs).last;
            && (last == idx || last == 0)
            && (last == 0 <==> idx == 0 || exists r :: r in recs && OneNumber(delim, r))
  {
    var next := NextIndex(delim, idx, recs[0]);
    assert Filter(delim, idx, recs).last == Filter(delim, next, recs[1..]).last;
    if next == idx {
      if exists r :: r in recs && OneNumber(delim, r) {
        var r :| r in recs && OneNumber(delim, r);
        if r != recs[0] {
          assert r in recs[1..];
        }
      }
      if exists r :: r in recs[1..] && OneNumber(delim, r) {
        var r :| r in recs[1..] && OneNumber(delim, r);
        assert r in recs;
      }
    } else {
      assert recs[0] in recs;
    }
  }

  /** Kept records are records of the input with a numeric first field and a
      field at the final value index; every numeric record with more fields
      than the starting index is kept. A header line whose first field is
      not a number is never kept. */
  lemma FilterKept(delim: string, idx: nat, recs: seq<string>)
    requires |delim| > 0
    ensures var sc := Filter(delim, idx, recs);
            && |sc.kept| <= |recs|
            && HasField(delim, sc.last, sc.kept)
            && (forall r :: r in sc.kept ==> r in recs && Numeric(delim, r))
            && (forall r :: r in recs && Numeric(delim, r) && |Split(r, delim)| > idx ==> r in sc.kept)
  {
    FilterSound(delim, idx, recs);
    FilterFields(delim, idx, recs);
    FilterComplete(delim, idx, recs);
  }

  /** The kept records are numeric records of the input, and no more of them
      than the input has (`FilterOrder` gives their order). */
  lemma {:induction false} FilterSound(delim: string, idx: nat, recs: seq<string>)
    requires |delim| > 0
    ensures var sc := Filter(delim, idx, recs);
            && |sc.kept| <= |recs|
            && forall r :: r in sc.kept ==> r in recs && Numeric(delim, r)
    decreases |recs|
  {
    if |recs| > 0 {
      FilterSound(delim, NextIndex(delim, idx, recs[0]), recs[1..]);
      assert forall r :: r in recs[1..] ==> r in recs;
    }
  }

  /** Every kept record has a field at the value index the filter ends with. */
  lemma {:induction false} FilterFields(delim: string, idx: nat, recs: seq<string>)
    requires |delim| > 0
    ensures var sc := Filter(delim, idx, recs);
            HasField(delim, sc.last, sc.kept)
    decreases |recs|
  {
    if |recs| > 0 {
      var next := NextIndex(delim, idx, recs[0]);
      FilterFields(delim, next, recs[1..]);
      FilterIndex(delim, next, recs[1..]);
      var rest := Filter(delim, next, recs[1..]);
      if Keeps(delim, idx, recs[0]) {
        var kept := [recs[0]] + rest.kept;
        assert rest.last <= next < |Split(recs[0], delim)|;
        forall k | 0 <= k < |kept| ensures rest.last < |Split(kept[k], delim)| {
          if k > 0 {
            assert kept[k] == rest.kept[k - 1];
          }
        }
      }
    }
  }

  /** Every numeric record with more fields than the starting value index is kept. */
  lemma {:induction false} FilterComplete(delim: string, idx: nat, recs: seq<string>)
    requires |delim| > 0
    ensures var sc := Filter(delim, idx, recs);
            forall r :: r in recs && Numeric(delim, r) && |Split(r, delim)| > idx ==> r in sc.kept
    decreases |recs|
  {
    if |recs| > 0 {
      var next := NextIndex(delim, idx, recs[0]);
      FilterComplete(delim, next, recs[1..]);
      var sc := Filter(delim, idx, recs);
      var rest := Filter(delim, next, recs[1..]);
      assert forall r :: r in rest.kept ==> r in sc.kept;
      forall r | r in recs && Numeric(delim, r) && |Split(r, delim)| > idx ensures r in sc.kept {
        if r != recs[0] {
          assert r in recs[1..];
        }
      }
    }
  }

  /** The value index `checkLines` holds when it reaches record `i`. */
  function IndexBefore(delim: string, idx: nat, recs: seq<string>, i: nat): nat
    requires |delim| > 0 && i <= |recs|
    decreases i
  {
    if i == 0 then idx else IndexBefore(delim, NextIndex(delim, idx, recs[0]), recs[1..], i - 1)
  }

  /** Every position one further on. */
  function Shift(ps: seq<nat>): (r: seq<nat>)
    ensures |r| == |ps| && forall k :: 0 <= k < |ps| ==> r[k] == ps[k] + 1
  {
    seq(|ps|, k requires 0 <= k < |ps| => ps[k] + 1)
  }

  /** The positions in `recs` of the records the filter keeps. */
  function Positions(delim: string, idx: nat, recs: seq<string>): seq<nat>
    requires |delim| > 0
    decreases |recs|
  {
    if |recs| == 0 then []
    else
      var rest := Shift(Positions(delim, NextIndex(delim, idx, recs[0]), recs[1..]));
      if Keeps(delim, idx, recs[0]) then [0] + rest else rest
  }

  /** Positions into `recs[1..]` shifted by one are positions into `recs`
      picking the same records. */
  lemma ShiftPick(recs: seq<string>, rest: seq<nat>, kept: seq<string>)
    requires |recs| > 0 && |rest| == |kept|
    requires forall j :: 0 <= j < |rest| ==> rest[j] < |recs[1..]| && kept[j] == recs[1..][rest[j]]
    ensures forall j :: 0 <= j < |rest| ==> Shift(rest)[j] < |recs| && kept[j] == recs[Shift(rest)[j]]
  {
    forall j | 0 <= j < |rest| ensures Shift(rest)[j] < |recs| && kept[j] == recs[Shift(rest)[j]] {
      assert recs[1..][rest[j]] == recs[rest[j] + 1];
    }
  }

  /** One record more in front: the positions and the kept records grow together. */
  lemma PickStep(recs: seq<string>, keep: bool, sh: seq<nat>, restKept: seq<string>, ps: seq<nat>, kept: seq<string>)
    requires |recs| > 0 && |sh| == |restKept|
    requires forall j :: 0 <= j < |sh| ==> sh[j] < |recs| && restKept[j] == recs[sh[j]]
    requires ps == (if keep then [0] + sh else sh) && kept == (if keep then [recs[0]] + restKept else restKept)
    ensures |ps| == |kept| && forall j :: 0 <= j < |ps| ==> ps[j] < |recs| && kept[j] == recs[ps[j]]
  {
    if keep {
      forall j | 0 < j < |ps| ensures ps[j] < |recs| && kept[j] == recs[ps[j]] {
        assert ps[j] == sh[j - 1] && kept[j] == restKept[j - 1];
      }
    }
  }

  /** The j-th kept record is the record at the j-th position. */
  lemma {:induction false} PositionsPick(delim: string, idx: nat, recs: seq<string>)
    requires |delim| > 0
    ensures var sc := Filter(delim, idx, recs);
            var ps := Positions(delim, idx, recs);
            && |ps| == |sc.kept|
            && forall j :: 0 <= j < |ps| ==> ps[j] < |recs| && sc.kept[j] == recs[ps[j]]
    decreases |recs|
  {
    if |recs| > 0 {
      var next := NextIndex(delim, idx, recs[0]);
      PositionsPick(delim, next, recs[1..]);
      var rest := Positions(delim, next, recs[1..]);
      var restKept := Filter(delim, next, recs[1..]).kept;
      ShiftPick(recs, rest, restKept);
      PickStep(recs, Keeps(delim, idx, recs[0]), Shift(rest), restKept,
               Positions(delim, idx, recs), Filter(delim, idx, recs).kept);
    }
  }

  /** Shifted ascending positions ascend and are all at least 1. */
  lemma ShiftAscend(rest: seq<nat>)
    requires forall j, k :: 0 <= j < k < |rest| ==> rest[j] < rest[k]
    ensures forall j :: 0 <= j < |Shift(rest)| ==> 1 <= Shift(rest)[j]
    ensures forall j, k :: 0 <= j < k < |Shift(rest)| ==> Shift(rest)[j] < Shift(rest)[k]
  {
    forall j, k | 0 <= j < k < |Shift(rest)| ensures Shift(rest)[j] < Shift(rest)[k] {
      assert rest[j] < rest[k];
    }
  }

  /** Putting 0 in front of positions that are all at least 1 keeps them ascending. */
  lemma AscendStep(sh: seq<nat>, keep: bool, ps: seq<nat>)
    requires forall j :: 0 <= j < |sh| ==> 1 <= sh[j]
    requires forall j, k :: 0 <= j < k < |sh| ==> sh[j] < sh[k]
    requires ps == if keep then [0] + sh else sh
    ensures forall j, k :: 0 <= j < k < |ps| ==> ps[j] < ps[k]
  {
    if keep {
      forall j, k | 0 <= j < k < |ps| ensures ps[j] < ps[k] {
        assert ps[k] == sh[k - 1];
        if j > 0 {
          assert ps[j] == sh[j - 1];
        }
      }
    }
  }

  /** The positions strictly ascend. */
  lemma {:induction false} PositionsAscend(delim: string, idx: nat, recs: seq<string>)
    requires |delim| > 0
    ensures forall j, k :: 0 <= j < k < |Positions(delim, idx, recs)| ==>
              Positions(delim, idx, recs)[j] < Positions(delim, idx, recs)[k]
    decreases |recs|
  {
    if |recs| > 0 {
      var next := NextIndex(delim, idx, recs[0]);
      var rest := Positions(delim, next, recs[1..]);
      PositionsAscend(delim, next, recs[1..]);
      ShiftAscend(rest);
      AscendStep(Shift(rest), Keeps(delim, idx, recs[0]), Positions(delim, idx, recs));
    }
  }

  /** Position `i` is kept exactly when `checkLines` accepts record `i` with
      the value index it holds at that point. */
  lemma {:induction false} PositionsExact(delim: string, idx: nat, recs: seq<string>)
    requires |delim| > 0
    ensures var ps := Positions(delim, idx, recs);
            forall i :: 0 <= i < |recs| ==> (i in ps <==> Keeps(delim, IndexBefore(delim, idx, recs, i), recs[i]))
    decreases |recs|
  {
    if |recs| > 0 {
      var next := NextIndex(delim, idx, recs[0]);
      PositionsExact(delim, next, recs[1..]);
      var rest := Positions(delim, next, recs[1..]);
      var sh := Shift(rest);
      var ps := Positions(delim, idx, recs);
      assert 0 !in sh;
      forall i | 0 < i < |recs|
        ensures (i in ps <==> Keeps(delim, IndexBefore(delim, idx, recs, i), recs[i]))
      {
        assert recs[1..][i - 1] == recs[i];
        assert i in sh <==> i - 1 in rest by {
          if i in sh {
            var j :| 0 <= j < |sh| && sh[j] == i;
            assert rest[j] == i - 1;
          }
          if i - 1 in rest {
            var j :| 0 <= j < |rest| && rest[j] == i - 1;
            assert sh[j] == i;
          }
        }
      }
    }
  }

  /** The filter keeps the input's order and multiplicity: the kept records
      are the records at the positions, in ascending order, where
      `checkLines` accepts with the value index it holds there. */
  lemma FilterOrder(delim: string, idx: nat, recs: seq<string>)
    requires |delim| > 0
    ensures var sc := Filter(delim, idx, recs);
            var ps := Positions(delim, idx, recs);
            && |ps| == |sc.kept|
            && (forall j :: 0 <= j < |ps| ==> ps[j] < |recs| && sc.kept[j] == recs[ps[j]])
            && (forall j, k :: 0 <= j < k < |ps| ==> ps[j] < ps[k])
            && (forall i :: 0 <= i < |recs| ==> (i in ps <==> Keeps(delim, IndexBefore(delim, idx, recs, i), recs[i])))
  {
    PositionsPick(delim, idx, recs);
    PositionsAscend(delim, idx, recs);
    PositionsExact(delim, idx, recs);
  }

  /** A token of a stream split at the delimiter holds no delimiter, so it is
      one field: a numeric token is kept (the index falls to 0), any other is
      dropped, and the values are those of the numeric tokens in order. */
  lemma {:induction false} FilterTokens(delim: string, idx: nat, tokens: seq<string>)
    requires |delim| > 0 && forall t :: t in tokens ==> !Contains(t, delim)
    ensures var sc := Filter(delim, idx, tokens);
            HasField(delim, sc.last, sc.kept) && ParseAll(delim, sc.last, sc.kept) == TokenValues(tokens)
    decreases |tokens|
  {
    FilterKept(delim, idx, tokens);
    if |tokens| > 0 {
      var t := tokens[0];
      assert t in tokens;
      SplitFree(t, delim);
      var next := NextIndex(delim, idx, t);
      assert forall u :: u in tokens[1..] ==> u in tokens;
      FilterTokens(delim, next, tokens[1..]);
      FilterKept(delim, next, tokens[1..]);
      FilterIndex(delim, next, tokens[1..]);
      var rest := Filter(delim, next, tokens[1..]);
      var v := ParseFloat(Trim(t));
      if Keeps(delim, idx, t) {
        assert next == 0 && rest.last == 0;
        TokenValuesCons(tokens);
        ParseAllCons(delim, 0, t, rest.kept);
      } else {
        assert v.None?;
        TokenValuesCons(tokens);
      }
    }
  }

  lemma TokenValuesCons(tokens: seq<string>)
    requires |tokens| > 0
    ensures var v := ParseFloat(Trim(tokens[0]));
            TokenValues(tokens) == (if v.Some? then [v] else []) + TokenValues(tokens[1..])
  {
  }

  lemma ParseAllCons(delim: string, idx: nat, rec: string, recs: seq<string>)
    requires |delim| > 0 && idx < |Split(rec, delim)| && HasField(delim, idx, recs)
    ensures HasField(delim, idx, [rec] + recs)
    ensures ParseAll(delim, idx, [rec] + recs) == [ParseLine(delim, idx, rec)] + ParseAll(delim, idx, recs)
  {
    HasFieldCons(delim, idx, rec, recs);
    var all := [rec] + recs;
    assert all[0] == rec && all[1..] == recs;
  }

  lemma HasFieldCons(delim: string, idx: nat, rec: string, recs: seq<string>)
    requires |delim| > 0 && idx < |Split(rec, delim)| && HasField(delim, idx, recs)
    ensures HasField(delim, idx, [rec] + recs)
  {
    var all := [rec] + recs;
    forall k | 0 <= k < |all| ensures idx < |Split(all[k], delim)| {
      if k > 0 {
        assert all[k] == recs[k - 1];
      }
    }
  }

  /** One event of the conversion loop: a cell index is the next channel, anything else is skipped. */
  lemma ChannelsStep(events: seq<Number>, i: nat, n: nat)
    requires i < |events|
    ensures IsChannel(events[i], n) ==> Channels(events[i..], n) == [events[i].value.Floor] + Channels(events[i + 1..], n)
    ensures !IsChannel(events[i], n) ==> Channels(events[i..], n) == Channels(events[i + 1..], n)
  {
    var xs := events[i..];
    assert xs[0] == events[i] && xs[1..] == events[i + 1..];
    if !IsChannel(events[i], n) {
      assert Channels(xs, n) == [] + Channels(xs[1..], n);
    }
  }

  /** The cells after one event: a cell index bumps its cell, anything else
      leaves the cells as they are. */
  function Bump(h: seq<int>, e: Number): (r: seq<int>)
    ensures |r| == |h|
  {
    if IsChannel(e, |h|) then h[e.value.Floor := h[e.value.Floor] + 1] else h
  }

  /** Cell index `k` bumps cell `k`. */
  lemma BumpCell(h: seq<int>, e: Number, k: int)
    requires IsChannel(e, |h|) && k == e.value.Floor
    ensures Bump(h, e) == h[k := h[k] + 1]
  {
  }

  /** One event of the conversion loop, as a step of the merge. */
  lemma ConvertStep(h: seq<int>, events: seq<Number>, i: nat)
    requires i < |events|
    ensures Merge(h, Channels(events[i..], |h|)) == Merge(Bump(h, events[i]), Channels(events[i + 1..], |h|))
  {
    if IsChannel(events[i], |h|) {
      var k := events[i].value.Floor;
      ConvertChannel(h, events, i, k);
    } else {
      ConvertSkip(h, events, i);
    }
  }

  /** One pass of the conversion loop keeps the merge of the cells and the
      events still to do. */
  lemma ConvertLoopStep(before: seq<int>, after: seq<int>, events: seq<Number>, i: nat, target: seq<int>)
    requires i < |events| && after == Bump(before, events[i])
    requires Merge(before, Channels(events[i..], |before|)) == target
    ensures Merge(after, Channels(events[i + 1..], |before|)) == target
  {
    ConvertStep(before, events, i);
  }

  /** An event that is cell index `k` bumps cell `k` before the rest merge. */
  lemma ConvertChannel(h: seq<int>, events: seq<Number>, i: nat, k: int)
    requires i < |events| && 0 <= k < |h| && events[i] == Some(k as real)
    ensures Merge(h, Channels(events[i..], |h|)) == Merge(Bump(h, events[i]), Channels(events[i + 1..], |h|))
  {
    var rest := Channels(events[i + 1..], |h|);
    ChannelsAtCell(events, i, |h|, k);
    BumpCell(h, events[i], k);
    MergeCons(h, k, rest);
  }

  /** An event that is cell index `k` contributes `k` to the channels. */
  lemma ChannelsAtCell(events: seq<Number>, i: nat, n: nat, k: int)
    requires i < |events| && 0 <= k < n && events[i] == Some(k as real)
    ensures Channels(events[i..], n) == [k] + Channels(events[i + 1..], n)
  {
    ChannelsStep(events, i, n);
  }

  /** Any other event leaves the merge as it is. */
  lemma ConvertSkip(h: seq<int>, events: seq<Number>, i: nat)
    requires i < |events| && !IsChannel(events[i], |h|)
    ensures Merge(h, Channels(events[i..], |h|)) == Merge(Bump(h, events[i]), Channels(events[i + 1..], |h|))
  {
    ChannelsStep(events, i, |h|);
  }

  /** Cell `k` of the merged events is the number of events equal to `k`. */
  lemma ChannelsCount(events: seq<Number>, n: nat)
    ensures forall k :: 0 <= k < n ==> multiset(Channels(events, n))[k] == multiset(events)[Some(k as real)]
    ensures (forall e :: e in events ==> IsChannel(e, n)) ==> |Channels(events, n)| == |events|
  {
    forall k | 0 <= k < n {
      ChannelCountAt(events, n, k);
    }
    if forall e :: e in events ==> IsChannel(e, n) {
      AllChannels(events, n);
    }
  }

  /** The count of one cell number among the channels. */
  lemma {:induction false} ChannelCountAt(events: seq<Number>, n: nat, k: int)
    requires 0 <= k < n
    ensures multiset(Channels(events, n))[k] == multiset(events)[Some(k as real)]
    decreases |events|
  {
    if |events| > 0 {
      ChannelCountAt(events[1..], n, k);
      ChannelCountStep(events, n, k);
    }
  }

  /** The count of one cell number after one more event. */
  lemma ChannelCountStep(events: seq<Number>, n: nat, k: int)
    requires 0 <= k < n && |events| > 0
    requires multiset(Channels(events[1..], n))[k] == multiset(events[1..])[Some(k as real)]
    ensures multiset(Channels(events, n))[k] == multiset(events)[Some(k as real)]
  {
    var e := events[0];
    assert events == [e] + events[1..];
    assert multiset(events)[Some(k as real)] == multiset{e}[Some(k as real)] + multiset(events[1..])[Some(k as real)];
    var head := if IsChannel(e, n) then [e.value.Floor] else [];
    assert Channels(events, n) == head + Channels(events[1..], n);
    assert multiset(head + Channels(events[1..], n)) == multiset(head) + multiset(Channels(events[1..], n));
    if IsChannel(e, n) {
      assert e == Some(e.value.Floor as real);
      assert (e.value.Floor == k) <==> (e == Some(k as real));
    } else {
      assert e != Some(k as real);
    }
  }

  /** No event is dropped when every event is a cell number. */
  lemma {:induction false} AllChannels(events: seq<Number>, n: nat)
    requires forall e :: e in events ==> IsChannel(e, n)
    ensures |Channels(events, n)| == |events|
    decreases |events|
  {
    if |events| > 0 {
      assert events[0] in events;
      assert forall u :: u in events[1..] ==> u in events;
      AllChannels(events[1..], n);
    }
  }

  /** A histogram file: one value per kept line, in file order, read from the
      column the value index points at when the filter is done. Lines whose
      first field is not a number (a header) give nothing; every numeric line
      with a field at `valueIndex` gives its value. The j-th value comes from
      the j-th accepted line in file order. */
  lemma CsvHistogramFile(valueIndex: nat, delim: string, adc: nat, data: string)
    requires |delim| > 0
    ensures var lines := Split(data, "\n");
            var sc := Filter(delim, valueIndex, lines);
            var ps := Positions(delim, valueIndex, lines);
            var r := CsvImport(valueIndex, delim, 1, adc, data);
            && HasField(delim, sc.last, sc.kept)
            && r.Values? && |r.values| == |ps| == |sc.kept|
            && (forall j :: 0 <= j < |ps| ==>
                  ps[j] < |lines| && sc.kept[j] == lines[ps[j]] && r.values[j] == ParseLine(delim, sc.last, sc.kept[j]))
            && (forall j, k :: 0 <= j < k < |ps| ==> ps[j] < ps[k])
            && (forall i :: 0 <= i < |lines| ==> (i in ps <==> Keeps(delim, IndexBefore(delim, valueIndex, lines, i), lines[i])))
            && (forall l :: l in sc.kept ==> l in lines && Numeric(delim, l))
            && (forall l :: l in lines && Numeric(delim, l) && |Split(l, delim)| > valueIndex ==> l in sc.kept)
  {
    var lines := Split(data, "\n");
    var sc := Filter(delim, valueIndex, lines);
    FilterKept(delim, valueIndex, lines);
    FilterOrder(delim, valueIndex, lines);
    forall j | 0 <= j < |sc.kept|
      ensures ParseAll(delim, sc.last, sc.kept)[j] == ParseLine(delim, sc.last, sc.kept[j])
    {
      ParseAllAt(delim, sc.last, sc.kept, j);
    }
  }

  /** A chronological stream: `adcChannels` cells, cell `k` holding the number
      of tokens whose value is `k`; the total is the number of tokens that
      name a cell, which is every numeric token when all of them do. */
  lemma CsvEventStream(valueIndex: nat, delim: string, fileType: int, adc: nat, data: string)
    requires |delim| > 0 && fileType != 1
    ensures var events := TokenValues(Split(data, delim));
            var r := CsvImport(valueIndex, delim, fileType, adc, data);
            && r.Counts? && |r.counts| == adc
            && (forall k :: 0 <= k < adc ==> r.counts[k] == multiset(events)[Some(k as real)])
            && Total(r.counts) == |Channels(events, adc)|
            && ((forall e :: e in events ==> IsChannel(e, adc)) ==> Total(r.counts) == |events|)
  {
    var tokens := Split(data, delim);
    SplitPiecesFree(data, delim);
    FilterTokens(delim, valueIndex, tokens);
    var events := TokenValues(tokens);
    ChannelsCount(events, adc);
    MergeIntoEmpty(adc, Channels(events, adc));
  }

  // ---------------------------------------------------------------------
  // XML documents, after parsing

  /** A `Coefficient` value, or a key of `coeff` assigned from outside the
      array of coefficients (`undefined`). */
  datatype Coeff = Num(value: real) | NaN | Undefined

  /** A spectrum element: the text of its `DataPoint`s, of its
      `MeasurementTime` if it has one, and of its `Coefficient`s. */
  datatype Spectrum = Spectrum(dataPoints: seq<string>, measurementTime: Option<string>, coefficients: seq<string>)

  /** The texts of the `SampleInfo` children that are present. */
  datatype SampleInfo = SampleInfo(
    name: Option<string>, location: Option<string>, time: Option<string>,
    note: Option<string>, weight: Option<string>, volume: Option<string>)

  /** The parts of a parsed document that `xmlToArray` reads. */
  datatype XmlDoc = XmlDoc(
    energy: Option<Spectrum>, background: Option<Spectrum>, sampleInfo: Option<SampleInfo>,
    deviceName: Option<string>, startTime: Option<string>, endTime: Option<string>)

  /** `ImportDataMeta`; `weight` and `volume` may be absent. */
  datatype Meta = Meta(
    name: string, location: string, time: string, weight: Option<real>, volume: Option<real>,
    notes: string, deviceName: string, startTime: string, endTime: string,
    dataMt: Number, backgroundMt: Number)

  /** `XMLImportData`; `coeff[j]` is the value of key `c(j+1)`. */
  datatype XmlImport = XmlImport(espectrum: seq<Number>, bgspectrum: seq<Number>, coeff: seq<Coeff>, meta: Meta)

  const DefaultMeta := Meta("", "", "", None, None, "", "", "", "", Some(0.0), Some(0.0))
  const DefaultCoeff := [Num(0.0), Num(0.0), Num(0.0)]

  function Max(a: int, b: int): int { if a >= b then a else b }

  function ToCoeff(n: Number): Coeff {
    match n
    case Some(v) => Num(v)
    case None => NaN
  }

  /** `coeffNumArray[k]`: undefined outside the array. */
  function CoeffAt(nums: seq<Number>, k: int): Coeff {
    if 0 <= k < |nums| then ToCoeff(nums[k]) else Undefined
  }

  /** The coefficients after `coeff['c' + (i + 1)] = coeffNumArray[2 - i]` for
      every index `i`: reversed when there are three, left at 0 when there
      are none, and undefined where `2 - i` falls outside the array. */
  function CoeffMap(nums: seq<Number>): (r: seq<Coeff>)
    ensures |r| == Max(3, |nums|)
    ensures |nums| == 0 ==> r == DefaultCoeff
    ensures |nums| == 3 ==> r == [ToCoeff(nums[2]), ToCoeff(nums[1]), ToCoeff(nums[0])]
    ensures |nums| == 2 ==> r == [Undefined, ToCoeff(nums[1]), Num(0.0)]
    ensures forall j :: 3 <= j < |r| ==> r[j] == Undefined
  {
    seq(Max(3, |nums|), j => if j < |nums| then CoeffAt(nums, 2 - j) else Num(0.0))
  }

  /** `el?.textContent?.trim() ?? default`. */
  function TextOr(t: Option<string>, default: string): string {
    match t
    case Some(s) => Trim(s)
    case None => default
  }

  /** Weight and volume: parseFloat of the text (or of '0'), converted from
      kg or L by a factor 1000, and present only when the value is positive. */
  function Scaled(t: Option<string>): (r: Option<real>)
    ensures r.Some? ==> r.value > 0.0 && ParseFloat(TextOr(t, "0")) == Some(r.value / 1000.0)
    ensures r.None? ==> ParseFloat(TextOr(t, "0")).None? || ParseFloat(TextOr(t, "0")).value <= 0.0
    ensures t.None? ==> r.None?
  {
    ParseNumeral("0");
    match ParseFloat(TextOr(t, "0"))
    case Some(v) => if v > 0.0 then Some(v * 1000.0) else None
    case None => None
  }

  /** The measurement time of a spectrum: 0 without the element, 1 when the
      element has no `MeasurementTime`, otherwise the parsed value. */
  function MeasurementTime(sp: Option<Spectrum>): (r: Number)
    ensures sp.None? ==> r == Some(0.0)
    ensures sp.Some? && sp.value.measurementTime.None? ==> r == Some(1.0)
    ensures sp.Some? && sp.value.measurementTime.Some? ==> r == ParseFloat(Trim(sp.value.measurementTime.value))
  {
    ParseNumeral("1");
    match sp
    case None => Some(0.0)
    case Some(s) => ParseFloat(TextOr(s.measurementTime, "1"))
  }

  /** The data points of a spectrum, or none without the element. */
  function DataPoints(sp: Option<Spectrum>): (r: seq<Number>)
    ensures sp.None? ==> r == []
    ensures sp.Some? ==> |r| == |sp.value.dataPoints|
                         && forall k :: 0 <= k < |r| ==> r[k] == ParseFloat(sp.value.dataPoints[k])
  {
    match sp
    case None => []
    case Some(s) => seq(|s.dataPoints|, k requires 0 <= k < |s.dataPoints| => ParseFloat(s.dataPoints[k]))
  }

  /** The parsed `Coefficient`s of the energy spectrum, or none without the element. */
  function Coefficients(sp: Option<Spectrum>): (r: seq<Number>)
    ensures sp.None? ==> r == []
    ensures sp.Some? ==> |r| == |sp.value.coefficients|
                         && forall k :: 0 <= k < |r| ==> r[k] == ParseFloat(sp.value.coefficients[k])
  {
    match sp
    case None => []
    case Some(s) => seq(|s.coefficients|, k requires 0 <= k < |s.coefficients| => ParseFloat(s.coefficients[k]))
  }

  /** The metadata of a document; missing texts read as ''. */
  function MetaOf(doc: XmlDoc): (m: Meta)
    ensures m.dataMt == MeasurementTime(doc.energy) && m.backgroundMt == MeasurementTime(doc.background)
    ensures doc.sampleInfo.None? ==> m.name == m.location == m.time == m.notes == "" && m.weight.None? && m.volume.None?
    ensures doc.deviceName.None? ==> m.deviceName == ""
    ensures doc.startTime.None? ==> m.startTime == ""
    ensures doc.endTime.None? ==> m.endTime == ""
  {
    var info := doc.sampleInfo;
    Meta(
      name := if info.Some? then TextOr(info.value.name, "") else "",
      location := if info.Some? then TextOr(info.value.location, "") else "",
      time := if info.Some? then TextOr(info.value.time, "") else "",
      weight := Scaled(if info.Some? then info.value.weight else None),
      volume := Scaled(if info.Some? then info.value.volume else None),
      notes := if info.Some? then TextOr(info.value.note, "") else "",
      deviceName := TextOr(doc.deviceName, ""),
      startTime := TextOr(doc.startTime, ""),
      endTime := TextOr(doc.endTime, ""),
      dataMt := MeasurementTime(doc.energy),
      backgroundMt := MeasurementTime(doc.background))
  }

  // ---------------------------------------------------------------------
  // The object

  class RawData {
    var valueIndex: nat
    var delimiter: string
    var adcChannels: nat
    var fileType: int
    var tempValIndex: nat

    predicate Valid()
      reads this
    {
      |delimiter| > 0
    }

    /** `new RawData(valueIndex, delimiter = ',')`. */
    constructor(valueIndex: nat, delimiter: string := ",")
      ensures this.valueIndex == valueIndex && this.delimiter == delimiter
      ensures adcChannels == 4096 && fileType == valueIndex && tempValIndex == valueIndex
    {
      this.valueIndex := valueIndex;
      this.delimiter := delimiter;
      adcChannels := 4096;
      fileType := valueIndex;
      tempValIndex := valueIndex;
    }

    /** `checkLines(value)`: a record whose trimmed first field is not a
        number is rejected; a one-field record sets the value index to 0;
        the record is accepted exactly when it has more fields than the
        value index. */
    method CheckLines(value: string) returns (ok: bool)
      requires Valid()
      modifies this`tempValIndex
      ensures ok == Keeps(delimiter, old(tempValIndex), value)
      ensures tempValIndex == NextIndex(delimiter, old(tempValIndex), value)
    {
      var values := Split(value, delimiter);
      if ParseFloat(Trim(values[0])).None? {
        return false;
      }
      if |values| == 1 {
        tempValIndex := 0;  // work-around for files with only one column
      }
      return |values| > tempValIndex;
    }

    /** `recs.filter(this.checkLines, this)`. */
    method FilterRecords(recs: seq<string>) returns (kept: seq<string>)
      requires Valid()
      modifies this`tempValIndex
      ensures kept == Filter(delimiter, old(tempValIndex), recs).kept
      ensures tempValIndex == Filter(delimiter, old(tempValIndex), recs).last
    {
      ghost var spec := Filter(delimiter, tempValIndex, recs);
      kept := [];
      assert recs[0..] == recs;
      for i := 0 to |recs|
        invariant kept + Filter(delimiter, tempValIndex, recs[i..]).kept == spec.kept
        invariant Filter(delimiter, tempValIndex, recs[i..]).last == spec.last
      {
        FilterLoopStep(delimiter, kept, tempValIndex, recs, i, spec);
        var ok := CheckLines(recs[i]);
        if ok {
          kept := kept + [recs[i]];
        }
      }
      assert recs[|recs|..] == [];
    }

    /** `recs.map(this.parseLines, this)`. */
    method ParseRecords(recs: seq<string>) returns (values: seq<Number>)
      requires Valid() && HasField(delimiter, tempValIndex, recs)
      ensures values == ParseAll(delimiter, tempValIndex, recs)
    {
      values := [];
      assert recs[0..] == recs;
      for i := 0 to |recs|
        invariant HasField(delimiter, tempValIndex, recs[i..])
        invariant values + ParseAll(delimiter, tempValIndex, recs[i..]) == ParseAll(delimiter, tempValIndex, recs)
      {
        ParseAllStep(delimiter, tempValIndex, recs, i);
        values := values + [ParseLine(delimiter, tempValIndex, recs[i])];
      }
      assert recs[|recs|..] == [];
    }

    /** `histConverter(dataArr)`: `adcChannels` zeros, and `xArray[e] += 1`
        for every event. An event that is not a cell index only adds a
        property to the JS array, so it leaves the cells alone. */
    method HistConverter(dataArr: seq<Number>) returns (xs: seq<int>)
      ensures xs == Merge(Zeros(adcChannels), Channels(dataArr, adcChannels))
    {
      var xArray := new int[adcChannels](_ => 0);
      ghost var target := Merge(Zeros(adcChannels), Channels(dataArr, adcChannels));
      assert xArray[..] == Zeros(adcChannels);
      assert dataArr[0..] == dataArr;
      for i := 0 to |dataArr|
        invariant xArray.Length == adcChannels
        invariant Merge(xArray[..], Channels(dataArr[i..], adcChannels)) == target
      {
        var element := dataArr[i];
        ghost var before := xArray[..];
        if IsChannel(element, adcChannels) {
          var k := element.value.Floor;
          xArray[k] := xArray[k] + 1;
          assert xArray[..] == before[k := before[k] + 1] == Bump(before, element);
        } else {
          assert xArray[..] == Bump(before, element);
        }
        ConvertLoopStep(before, xArray[..], dataArr, i, target);
      }
      assert dataArr[|dataArr|..] == [];
      xs := xArray[..];
    }

    /** `csvToArray(data)`. */
    method CsvToArray(data: string) returns (r: CsvResult)
      requires Valid()
      modifies this`tempValIndex
      ensures r == CsvImport(valueIndex, delimiter, fileType, adcChannels, data)
      ensures tempValIndex == Filter(delimiter, valueIndex, Records(delimiter, fileType, data)).last
    {
      tempValIndex := valueIndex;  // reset the value index
      FilterKept(delimiter, valueIndex, Records(delimiter, fileType, data));
      if fileType == 1 {
        var dataLines := FilterRecords(Split(data, "\n"));
        var values := ParseRecords(dataLines);
        return Values(values);
      } else {
        var dataEvents := FilterRecords(Split(data, delimiter));
        var events := ParseRecords(dataEvents);
        var counts := HistConverter(events);
        return Counts(counts);
      }
    }

    /** The `for (const i in coeffNumArray)` loop of `xmlToArray`, starting
        from c1 = c2 = c3 = 0. */
    method MapCoefficients(nums: seq<Number>) returns (coeff: seq<Coeff>)
      ensures coeff == CoeffMap(nums)
    {
      coeff := DefaultCoeff;
      for i := 0 to |nums|
        invariant |coeff| == Max(3, i)
        invariant forall j :: 0 <= j < |coeff| ==> coeff[j] == if j < i then CoeffAt(nums, 2 - j) else Num(0.0)
      {
        var v := CoeffAt(nums, 2 - i);  // coeff['c' + (i + 1)] = coeffNumArray[2 - i]
        if i < |coeff| {
          coeff := coeff[i := v];
        } else {
          coeff := coeff + [v];
        }
      }
    }

    /** The part of `xmlToArray(data)` after the document is parsed; None
        stands for a parse that threw, which leaves every default. */
    method XmlToArray(doc: Option<XmlDoc>) returns (r: XmlImport)
      ensures doc.None? ==> r == XmlImport([], [], DefaultCoeff, DefaultMeta)
      ensures doc.Some? ==> && r.espectrum == DataPoints(doc.value.energy)
                            && r.bgspectrum == DataPoints(doc.value.background)
                            && r.meta == MetaOf(doc.value)
      ensures doc.Some? ==> r.coeff == CoeffMap(Coefficients(doc.value.energy))
    {
      var coeff := DefaultCoeff;
      if doc.None? {
        return XmlImport([], [], coeff, DefaultMeta);
      }
      var d := doc.value;
      var espectrum := DataPoints(d.energy);
      var bgspectrum := DataPoints(d.background);
      if d.energy.Some? {
        coeff := MapCoefficients(Coefficients(d.energy));
      }
      return XmlImport(espectrum, bgspectrum, coeff, MetaOf(d));
    }
  }
}
