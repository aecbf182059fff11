/** The serial stream decoder of assets/js/serial.js: the `SerialData` object
    that buffers text arriving from an instrument, cuts it into frames, turns
    the frames into channel numbers and hands those to the histogram merge.

    The pure functions first say what one call does to the decoder's state
    (`Ingest` for `addRaw`, `ConsoleAppend` for `addRawData`, `Merge` for
    `updateData`); the class `SerialData` then does it step by step, as the
    source does, and each of its methods is proved to end in the state those
    functions give. The lemmas state what the source promises about them. */
module Serial {
  import opened Wrappers
  import opened JsString
  import opened JsNumber
  import opened Histogram

  /** `orderType`: one channel number per frame ('chron'), or one full
      histogram per line ('hist'). */
  datatype OrderType = Chron | Hist

  /** The settings of a SerialData object. */
  datatype Config = Config(
    maxSize: int,          // sink length beyond which input is refused
    adcChannels: nat,      // channel count
    maxLength: int,        // a chron frame must be shorter than this
    maxHistLength: int,    // a hist line must be shorter than this
    eolChar: string,       // frame terminator (chron), field terminator (hist)
    orderType: OrderType,
    consoleMemory: nat)    // capacity of the console text
  {
    predicate Valid() {
      |eolChar| > 0
    }
  }

  /** The mutable part of a SerialData object: the console text, the raw
      text not yet decoded, the sink of decoded channel numbers and the
      baseline snapshot of hist mode. */
  datatype Decoder = Decoder(serInput: string, rawData: string, serData: seq<int>, baseHist: seq<int>)

  /** The line terminator of hist mode. */
  const LineEnd: string := "\r\n"

  function Min(a: int, b: int): int {
    if a <= b then a else b
  }

  // ---------------------------------------------------------------------
  // addRawData: the console buffer

  /** The console text after `s` arrives: the newest `consoleMemory`
      characters of the old text followed by `s`. */
  function ConsoleAppend(serInput: string, s: string, consoleMemory: nat): (r: string)
    ensures |r| == Min(|serInput| + |s|, consoleMemory)
    ensures r == (serInput + s)[|serInput| + |s| - |r|..]
  {
    var t := serInput + s;
    if |t| > consoleMemory then t[|t| - consoleMemory..] else t
  }

  // ---------------------------------------------------------------------
  // chron mode

  /** The channel number a chron frame carries, or None when the frame is
      discarded: empty after trimming, at least `maxLength` long, not a
      number, negative, or above `adcChannels`. */
  function FrameValue(cfg: Config, frag: string): (v: Option<int>)
    ensures v.Some? <==> 0 < |Trim(frag)| < cfg.maxLength && ParseInt(Trim(frag)).Some?
                         && 0 <= ParseInt(Trim(frag)).value <= cfg.adcChannels
    ensures v.Some? ==> v == ParseInt(Trim(frag))
  {
    var t := Trim(frag);
    if |t| == 0 || |t| >= cfg.maxLength then None
    else
      match ParseInt(t)
      case None => None
      case Some(n) => if n < 0 || n > cfg.adcChannels then None else Some(n)
  }

  /** One pass of the chron loop: cut the frame and its terminator out of the
      raw text, and push its value if it has one. */
  function ChronStep(cfg: Config, st: Decoder, frag: string): Decoder
  {
    var raw := ReplaceFirst(st.rawData, frag + cfg.eolChar);
    match FrameValue(cfg, frag)
    case None => st.(rawData := raw)
    case Some(v) => st.(rawData := raw, serData := st.serData + [v])
  }

  /** The chron loop over the frames still to do. */
  function ChronRun(cfg: Config, st: Decoder, frags: seq<string>): Decoder
    decreases |frags|
  {
    if |frags| == 0 then st else ChronRun(cfg, ChronStep(cfg, st, frags[0]), frags[1..])
  }

  /** What one frame contributes to the sink: its value, or nothing. */
  function FrameOut(cfg: Config, frag: string): seq<int>
  {
    match FrameValue(cfg, frag)
    case Some(v) => [v]
    case None => []
  }

  /** The values of the frames that carry one, in frame order. */
  function ChronValues(cfg: Config, frags: seq<string>): seq<int>
  {
    if |frags| == 0 then [] else FrameOut(cfg, frags[0]) + ChronValues(cfg, frags[1..])
  }

  /** The raw text after every frame, in order, had its first occurrence
      (with terminator) cut out. */
  function ChronExcise(raw: string, frags: seq<string>, eol: string): string
    decreases |frags|
  {
    if |frags| == 0 then raw else ChronExcise(ReplaceFirst(raw, frags[0] + eol), frags[1..], eol)
  }

  /** The chron branch of addRaw, on a raw text that already holds the new input. */
  function ChronDecode(cfg: Config, st: Decoder): Decoder
    requires cfg.Valid()
  {
    var frames := Interior(Split(st.rawData, cfg.eolChar));
    if |frames| <= 1 then
      st.(rawData := if |st.rawData| > cfg.maxLength then "" else st.rawData)
    else
      ChronRun(cfg, st, frames)
  }

  // ---------------------------------------------------------------------
  // hist mode

  /** `parseInt` of every field, with NaN read as 0. */
  function Snapshot(fields: seq<string>): seq<int>
  {
    seq(|fields|, i requires 0 <= i < |fields| => ParseInt(fields[i]).GetOr(0))
  }

  /** The fields of a hist line: its trimmed text split at the terminator,
      without the piece after the last terminator. */
  function HistFields(cfg: Config, line: string): seq<string>
    requires cfg.Valid()
  {
    DropLast(Split(Trim(line), cfg.eolChar))
  }

  /** The snapshot a hist line carries, or None when the line is discarded:
      empty after trimming, at least `maxHistLength` long, or with a field
      count other than `adcChannels`. */
  function HistLine(cfg: Config, line: string): Option<seq<int>>
    requires cfg.Valid()
  {
    var t := Trim(line);
    if |t| == 0 || |t| >= cfg.maxHistLength then None
    else if |HistFields(cfg, line)| != cfg.adcChannels then None
    else Some(Snapshot(HistFields(cfg, line)))
  }

  /** `diffHist`: the signed per-channel change, None (NaN) where the
      baseline has no entry. */
  function Diff(base: seq<int>, snap: seq<int>): seq<Option<int>>
  {
    seq(|snap|, i requires 0 <= i < |snap| => if i < |base| then Some(snap[i] - base[i]) else None)
  }

  /** How many times channel `ch` is emitted: the increase, when there is one. */
  function Delta(base: seq<int>, snap: seq<int>, ch: int): nat
  {
    if 0 <= ch < |snap| && ch < |base| && snap[ch] > base[ch] then snap[ch] - base[ch] else 0
  }

  function Repeat(x: int, n: nat): (r: seq<int>)
    ensures |r| == n && forall k :: 0 <= k < n ==> r[k] == x
  {
    if n == 0 then [] else Repeat(x, n - 1) + [x]
  }

  /** The events the nested `ch`/`num` loops push for channels below `n`. */
  function Emissions(base: seq<int>, snap: seq<int>, n: nat): seq<int>
  {
    if n == 0 then [] else Emissions(base, snap, n - 1) + Repeat(n - 1, Delta(base, snap, n - 1))
  }

  /** One pass of the hist loop, and whether addRaw returns after it (the
      first snapshot becomes the baseline and ends the call). */
  function HistStep(cfg: Config, st: Decoder, line: string): (Decoder, bool)
    requires cfg.Valid()
  {
    var st1 := st.(rawData := ReplaceAll(st.rawData, line + LineEnd));
    match HistLine(cfg, line)
    case None => (st1, false)
    case Some(snap) =>
      if |st.baseHist| == 0 then (st1.(baseHist := snap), true)
      else (st1.(serData := st.serData + Emissions(st.baseHist, snap, cfg.adcChannels), baseHist := snap), false)
  }

  /** The hist loop over the lines still to do. */
  function HistRun(cfg: Config, st: Decoder, lines: seq<string>): Decoder
    requires cfg.Valid()
    decreases |lines|
  {
    if |lines| == 0 then st
    else
      var (st1, stop) := HistStep(cfg, st, lines[0]);
      if stop then st1 else HistRun(cfg, st1, lines[1..])
  }

  /** The hist loop from line `i` on is one step and then the loop from `i + 1`,
      unless the step ends the call. */
  lemma HistRunStep(cfg: Config, st: Decoder, lines: seq<string>, i: nat)
    requires cfg.Valid() && i < |lines|
    ensures HistRun(cfg, st, lines[i..])
         == if HistStep(cfg, st, lines[i]).1 then HistStep(cfg, st, lines[i]).0
            else HistRun(cfg, HistStep(cfg, st, lines[i]).0, lines[i + 1..])
  {
    assert lines[i..][0] == lines[i] && lines[i..][1..] == lines[i + 1..];
  }

  /** The hist branch of addRaw, on a raw text that already holds the new input. */
  function HistDecode(cfg: Config, st: Decoder): Decoder
    requires cfg.Valid()
  {
    var lines := Interior(Split(st.rawData, LineEnd));
    if |lines| < 1 then
      st.(rawData := if |st.rawData| > cfg.maxHistLength then "" else st.rawData)
    else
      HistRun(cfg, st, lines)
  }

  // ---------------------------------------------------------------------
  // addRaw

  /** The decoder state after `addRaw(s, onlyConsole)`. */
  function Ingest(cfg: Config, st: Decoder, s: string, onlyConsole: bool): Decoder
    requires cfg.Valid()
  {
    if |st.serData| > cfg.maxSize then st
    else
      var st1 := st.(serInput := ConsoleAppend(st.serInput, s, cfg.consoleMemory));
      if onlyConsole then st1
      else
        var st2 := st1.(rawData := st.rawData + s);
        match cfg.orderType
        case Chron => ChronDecode(cfg, st2)
        case Hist => HistDecode(cfg, st2)
  }

  // ---------------------------------------------------------------------
  // Properties of the decoder

  lemma ChronStepEffect(cfg: Config, st: Decoder, frag: string)
    ensures ChronStep(cfg, st, frag)
         == st.(rawData := ReplaceFirst(st.rawData, frag + cfg.eolChar), serData := st.serData + FrameOut(cfg, frag))
  {
  }

  /** The chron loop cuts the frames out of the raw text and appends the
      values of the valid ones to the sink, leaving the rest alone. */
  lemma {:induction false} ChronRunEffect(cfg: Config, st: Decoder, frags: seq<string>)
    ensures ChronRun(cfg, st, frags)
         == st.(rawData := ChronExcise(st.rawData, frags, cfg.eolChar),
                serData := st.serData + ChronValues(cfg, frags))
    decreases |frags|
  {
    if |frags| > 0 {
      var st1 := ChronStep(cfg, st, frags[0]);
      ChronStepEffect(cfg, st, frags[0]);
      ChronRunEffect(cfg, st1, frags[1..]);
      var head := FrameOut(cfg, frags[0]);
      var rest := ChronValues(cfg, frags[1..]);
      assert ChronRun(cfg, st, frags) == ChronRun(cfg, st1, frags[1..]);
      assert ChronExcise(st.rawData, frags, cfg.eolChar)
          == ChronExcise(st1.rawData, frags[1..], cfg.eolChar);
      assert ChronValues(cfg, frags) == head + rest;
      assert st1.serData + rest == st.serData + (head + rest);
    }
  }

  /** Every value the chron decoder emits is in 0..adcChannels and is the
      value of one of the frames, and there are no more values than frames. */
  lemma {:induction false} ChronValuesSound(cfg: Config, frags: seq<string>)
    ensures |ChronValues(cfg, frags)| <= |frags|
    ensures forall v :: v in ChronValues(cfg, frags) ==> 0 <= v <= cfg.adcChannels
    ensures forall v :: v in ChronValues(cfg, frags) ==> exists f :: f in frags && FrameValue(cfg, f) == Some(v)
    decreases |frags|
  {
    if |frags| > 0 {
      ChronValuesSound(cfg, frags[1..]);
      assert ChronValues(cfg, frags) == FrameOut(cfg, frags[0]) + ChronValues(cfg, frags[1..]);
      forall v | v in ChronValues(cfg, frags[1..])
        ensures exists f :: f in frags && FrameValue(cfg, f) == Some(v)
      {
        var f :| f in frags[1..] && FrameValue(cfg, f) == Some(v);
        assert f in frags;
      }
    }
  }

  /** The values come out in frame order: those of earlier frames first. */
  lemma {:induction false} ChronValuesAppend(cfg: Config, a: seq<string>, b: seq<string>)
    ensures ChronValues(cfg, a + b) == ChronValues(cfg, a) + ChronValues(cfg, b)
    decreases |a|
  {
    if |a| == 0 {
      assert a + b == b;
    } else {
      ChronValuesAppend(cfg, a[1..], b);
      HeadSplit(a, b);
      ChronValuesCons(cfg, a[0], a[1..] + b);
      ChronValuesCons(cfg, a[0], a[1..]);
      AppendAssoc(FrameOut(cfg, a[0]), ChronValues(cfg, a[1..]), ChronValues(cfg, b));
    }
  }

  /** The values of a frame in front of others. */
  lemma ChronValuesCons(cfg: Config, f: string, rest: seq<string>)
    ensures ChronValues(cfg, [f] + rest) == FrameOut(cfg, f) + ChronValues(cfg, rest)
  {
    assert ([f] + rest)[1..] == rest;
  }

  /** A non-empty sequence is its head in front of its tail. */
  lemma HeadSplit<T>(a: seq<T>, b: seq<T>)
    requires |a| > 0
    ensures a == [a[0]] + a[1..] && a + b == [a[0]] + (a[1..] + b)
  {
  }

  lemma AppendAssoc<T>(x: seq<T>, y: seq<T>, z: seq<T>)
    ensures x + (y + z) == (x + y) + z
  {
  }

  /** addRaw in chron mode. The first and the last fragment of the raw text
      are never decoded. With at most one fragment between them nothing is
      decoded, and the raw text is dropped exactly when it is longer than
      `maxLength`. Otherwise the sink grows by the values of the inner
      fragments and those fragments are cut out of the raw text. The
      baseline is not touched. */
  lemma IngestChron(cfg: Config, st: Decoder, s: string)
    requires cfg.Valid() && cfg.orderType == Chron && |st.serData| <= cfg.maxSize
    ensures var raw := st.rawData + s;
            var frames := Interior(Split(raw, cfg.eolChar));
            var r := Ingest(cfg, st, s, false);
            && r.serInput == ConsoleAppend(st.serInput, s, cfg.consoleMemory)
            && r.baseHist == st.baseHist
            && (|frames| <= 1 ==> r.serData == st.serData && r.rawData == (if |raw| > cfg.maxLength then "" else raw))
            && (|frames| >= 2 ==> (r.serData == st.serData + ChronValues(cfg, frames)
                                   && r.rawData == ChronExcise(raw, frames, cfg.eolChar)))
  {
    var raw := st.rawData + s;
    var st2 := st.(serInput := ConsoleAppend(st.serInput, s, cfg.consoleMemory), rawData := raw);
    ChronRunEffect(cfg, st2, Interior(Split(raw, cfg.eolChar)));
  }

  /** Cutting out frames that end in a one-character terminator never
      reaches a tail that holds no terminator. */
  lemma {:induction false} ChronExciseKeepsTail(raw: string, frags: seq<string>, eol: string, tail: string)
    requires |eol| == 1 && EndsWith(raw, tail) && eol[0] !in tail
    ensures EndsWith(ChronExcise(raw, frags, eol), tail)
    decreases |frags|
  {
    if |frags| > 0 {
      var pat := frags[0] + eol;
      assert pat[|pat| - 1] == eol[0];
      ReplaceFirstKeepsTail(raw, pat, tail);
      ChronExciseKeepsTail(ReplaceFirst(raw, pat), frags[1..], eol, tail);
    }
  }

  lemma NoCharOccurrence(tail: string, eol: string)
    requires |eol| == 1 && !Contains(tail, eol)
    ensures eol[0] !in tail
  {
    IndexOfSpec(tail, eol);
    assert eol == [eol[0]];
    forall j | 0 <= j < |tail| ensures tail[j] != eol[0] {
      assert !OccursAt(tail, eol, j);
      assert tail[j..j + 1] == [tail[j]];
    }
  }

  /** With a one-character terminator, the incomplete frame after the last
      terminator stays at the end of the raw text for the next call: decoding
      in chron mode never eats into it. */
  lemma ChronKeepsTail(cfg: Config, st: Decoder, s: string)
    requires cfg.Valid() && |cfg.eolChar| == 1 && cfg.orderType == Chron && |st.serData| <= cfg.maxSize
    ensures var parts := Split(st.rawData + s, cfg.eolChar);
            |parts| >= 4 ==> EndsWith(Ingest(cfg, st, s, false).rawData, parts[|parts| - 1])
  {
    var raw := st.rawData + s;
    var parts := Split(raw, cfg.eolChar);
    if |parts| >= 4 {
      var tail := parts[|parts| - 1];
      SplitLastIsSuffix(raw, cfg.eolChar);
      assert !Contains(tail, cfg.eolChar) by {
        SplitPiecesFree(raw, cfg.eolChar);
        assert tail in parts;
      }
      NoCharOccurrence(tail, cfg.eolChar);
      var frames := Interior(parts);
      assert |frames| >= 2;
      ChronExciseKeepsTail(raw, frames, cfg.eolChar, tail);
      IngestChron(cfg, st, s);
    }
  }

  /** The hist decoder emits only channels below the count. */
  lemma {:induction false} EmissionsRange(base: seq<int>, snap: seq<int>, n: nat)
    ensures forall v :: v in Emissions(base, snap, n) ==> 0 <= v < n
  {
    if n > 0 {
      EmissionsRange(base, snap, n - 1);
      var r := Repeat(n - 1, Delta(base, snap, n - 1));
      assert forall v :: v in r ==> v == n - 1;
    }
  }

  /** The hist decoder emits channel `ch` exactly `Delta` times: the increase
      over the baseline, or none. */
  lemma EmissionsCount(base: seq<int>, snap: seq<int>, n: nat)
    ensures forall ch :: 0 <= ch < n ==> multiset(Emissions(base, snap, n))[ch] == Delta(base, snap, ch)
    ensures forall ch :: (ch < 0 || ch >= n) ==> multiset(Emissions(base, snap, n))[ch] == 0
  {
    forall ch {
      EmissionsCountAt(base, snap, n, ch);
    }
  }

  /** The count of one channel among the emitted events. */
  lemma EmissionsCountAt(base: seq<int>, snap: seq<int>, n: nat, ch: int)
    ensures multiset(Emissions(base, snap, n))[ch] == if 0 <= ch < n then Delta(base, snap, ch) else 0
  {
    EmissionsOccurrences(base, snap, n, ch);
    OccurrencesCount(Emissions(base, snap, n), ch);
  }

  /** How many times `x` occurs in `s`. */
  function Occurrences(s: seq<int>, x: int): nat
  {
    if |s| == 0 then 0 else Occurrences(s[..|s| - 1], x) + (if s[|s| - 1] == x then 1 else 0)
  }

  /** `Occurrences` agrees with the multiset count. */
  lemma {:induction false} OccurrencesCount(s: seq<int>, x: int)
    ensures Occurrences(s, x) == multiset(s)[x]
  {
    if |s| > 0 {
      OccurrencesCount(s[..|s| - 1], x);
      assert s == s[..|s| - 1] + [s[|s| - 1]];
    }
  }

  /** Counting distributes over concatenation. */
  lemma {:induction false} OccurrencesAppend(a: seq<int>, b: seq<int>, x: int)
    ensures Occurrences(a + b, x) == Occurrences(a, x) + Occurrences(b, x)
  {
    if |b| > 0 {
      OccurrencesAppend(a, b[..|b| - 1], x);
      assert (a + b)[..|a + b| - 1] == a + b[..|b| - 1];
      assert (a + b)[|a + b| - 1] == b[|b| - 1];
    } else {
      assert a + b == a;
    }
  }

  /** `d` copies of `x` hold `x` `d` times and nothing else. */
  lemma {:induction false} OccurrencesRepeat(x: int, d: nat, ch: int)
    ensures Occurrences(Repeat(x, d), ch) == if ch == x then d else 0
  {
    if d > 0 {
      OccurrencesRepeat(x, d - 1, ch);
      assert Repeat(x, d)[..d - 1] == Repeat(x, d - 1);
    }
  }

  /** Channel `ch` occurs `Delta` times among the first `n` channels' events. */
  lemma {:induction false} EmissionsOccurrences(base: seq<int>, snap: seq<int>, n: nat, ch: int)
    ensures Occurrences(Emissions(base, snap, n), ch) == if 0 <= ch < n then Delta(base, snap, ch) else 0
  {
    if n > 0 {
      EmissionsOccurrences(base, snap, n - 1, ch);
      OccurrencesAppend(Emissions(base, snap, n - 1), Repeat(n - 1, Delta(base, snap, n - 1)), ch);
      OccurrencesRepeat(n - 1, Delta(base, snap, n - 1), ch);
    }
  }

  /** The hist decoder emits in ascending channel order. */
  lemma {:induction false} EmissionsSorted(base: seq<int>, snap: seq<int>, n: nat)
    ensures forall i, j :: 0 <= i < j < |Emissions(base, snap, n)| ==>
              Emissions(base, snap, n)[i] <= Emissions(base, snap, n)[j]
  {
    if n > 0 {
      EmissionsSorted(base, snap, n - 1);
      EmissionsRange(base, snap, n - 1);
      var e := Emissions(base, snap, n - 1);
      var r := Repeat(n - 1, Delta(base, snap, n - 1));
      forall i, j | 0 <= i < j < |e + r| ensures (e + r)[i] <= (e + r)[j] {
        if i >= |e| {
          assert (e + r)[i] == r[i - |e|];
        } else if j >= |e| {
          assert (e + r)[i] == e[i] && e[i] in e;
          assert (e + r)[j] == r[j - |e|];
        }
      }
    }
  }

  /** A snapshot equal to the baseline emits nothing. */
  lemma {:induction false} EmissionsUnchanged(h: seq<int>, n: nat)
    ensures Emissions(h, h, n) == []
  {
    if n > 0 {
      EmissionsUnchanged(h, n - 1);
      assert Delta(h, h, n - 1) == 0;
    }
  }

  /** Baseline [0,0,0] and snapshot [2,0,1] give channel 0 twice and channel 2 once. */
  lemma EmissionsExample()
    ensures Emissions([0, 0, 0], [2, 0, 1], 3) == [0, 0, 2]
  {
    assert Repeat(0, 2) == [0, 0];
    assert Repeat(2, 1) == [2];
  }

  /** A hist line is decoded exactly when its trimmed text is non-empty,
      shorter than `maxHistLength` and has `adcChannels` fields before the
      last terminator; each field is its parseInt, NaN counting as 0. */
  lemma HistLineShape(cfg: Config, line: string)
    requires cfg.Valid()
    ensures HistLine(cfg, line).Some?
        <==> 0 < |Trim(line)| < cfg.maxHistLength && |HistFields(cfg, line)| == cfg.adcChannels
    ensures HistLine(cfg, line).Some? ==>
              var h := HistLine(cfg, line).value;
              |h| == cfg.adcChannels
              && forall i :: 0 <= i < |h| ==> h[i] == ParseInt(HistFields(cfg, line)[i]).GetOr(0)
  {
  }

  /** The raw text after `replaceAll(line + '\r\n', '')` for each line in turn. */
  function ReplaceEach(raw: string, lines: seq<string>): string
    decreases |lines|
  {
    if |lines| == 0 then raw else ReplaceEach(ReplaceAll(raw, lines[0] + LineEnd), lines[1..])
  }

  /** With no baseline yet, the first decodable line `lines[i]` becomes the
      baseline and ends the call: nothing is emitted, the lines before it
      are only cut from the raw text, and the lines after it are left alone. */
  lemma {:induction false} HistRunBaseline(cfg: Config, st: Decoder, lines: seq<string>, i: nat)
    requires cfg.Valid() && |st.baseHist| == 0 && i < |lines| && HistLine(cfg, lines[i]).Some?
    requires forall j :: 0 <= j < i ==> HistLine(cfg, lines[j]).None?
    ensures var r := HistRun(cfg, st, lines);
            && r.baseHist == HistLine(cfg, lines[i]).value
            && r.serData == st.serData
            && r.serInput == st.serInput
            && r.rawData == ReplaceEach(st.rawData, lines[..i + 1])
    decreases i
  {
    var st1 := HistStep(cfg, st, lines[0]).0;
    assert lines[..i + 1][0] == lines[0];
    assert lines[..i + 1][1..] == lines[1..][..i];
    if i > 0 {
      assert HistLine(cfg, lines[0]).None?;
      forall j | 0 <= j < i - 1 ensures HistLine(cfg, lines[1..][j]).None? {
        assert lines[1..][j] == lines[j + 1];
      }
      HistRunBaseline(cfg, st1, lines[1..], i - 1);
    }
  }

  /** Feeding the same snapshot twice emits nothing the second time, and the
      baseline stays that snapshot. */
  lemma HistSameSnapshotTwice(cfg: Config, st: Decoder, line: string)
    requires cfg.Valid() && cfg.adcChannels > 0 && HistLine(cfg, line).Some? && |st.baseHist| > 0
    ensures var (st1, stop1) := HistStep(cfg, st, line);
            var (st2, stop2) := HistStep(cfg, st1, line);
            && !stop1 && !stop2
            && st2.serData == st1.serData
            && st2.baseHist == st1.baseHist == HistLine(cfg, line).value
  {
    var snap := HistLine(cfg, line).value;
    HistLineShape(cfg, line);
    EmissionsUnchanged(snap, cfg.adcChannels);
  }

  /** `longer` is `shorter` followed by values in 0..bound only. */
  predicate Extends(shorter: seq<int>, longer: seq<int>, bound: int) {
    |shorter| <= |longer| && longer[..|shorter|] == shorter
    && forall k :: |shorter| <= k < |longer| ==> 0 <= longer[k] <= bound
  }

  lemma ExtendsTrans(a: seq<int>, b: seq<int>, c: seq<int>, bound: int)
    requires Extends(a, b, bound) && Extends(b, c, bound)
    ensures Extends(a, c, bound)
  {
    assert c[..|a|] == c[..|b|][..|a|];
    forall k | |a| <= k < |c| ensures 0 <= c[k] <= bound {
      if k < |b| {
        assert c[k] == c[..|b|][k];
      }
    }
  }

  lemma HistStepSink(cfg: Config, st: Decoder, line: string)
    requires cfg.Valid()
    ensures var r := HistStep(cfg, st, line).0;
            Extends(st.serData, r.serData, cfg.adcChannels - 1) && r.serInput == st.serInput
  {
    var r := HistStep(cfg, st, line).0;
    if HistLine(cfg, line).Some? && |st.baseHist| > 0 {
      var snap := HistLine(cfg, line).value;
      EmissionsRange(st.baseHist, snap, cfg.adcChannels);
      var e := Emissions(st.baseHist, snap, cfg.adcChannels);
      assert r.serData == st.serData + e;
      forall k | |st.serData| <= k < |r.serData| ensures 0 <= r.serData[k] <= cfg.adcChannels - 1 {
        assert r.serData[k] == e[k - |st.serData|];
        assert e[k - |st.serData|] in e;
      }
    }
  }

  /** The hist loop only appends events of channels below `adcChannels` to
      the sink and never touches the console. */
  lemma {:induction false} HistRunSink(cfg: Config, st: Decoder, lines: seq<string>)
    requires cfg.Valid()
    ensures var r := HistRun(cfg, st, lines);
            Extends(st.serData, r.serData, cfg.adcChannels - 1) && r.serInput == st.serInput
    decreases |lines|
  {
    if |lines| > 0 {
      var (st1, stop) := HistStep(cfg, st, lines[0]);
      HistStepSink(cfg, st, lines[0]);
      if !stop {
        HistRunSink(cfg, st1, lines[1..]);
        ExtendsTrans(st.serData, st1.serData, HistRun(cfg, st1, lines[1..]).serData, cfg.adcChannels - 1);
      }
    }
  }

  lemma ChronSink(cfg: Config, st: Decoder, s: string)
    requires cfg.Valid() && cfg.orderType == Chron && |st.serData| <= cfg.maxSize
    ensures Extends(st.serData, Ingest(cfg, st, s, false).serData, cfg.adcChannels)
  {
    var frames := Interior(Split(st.rawData + s, cfg.eolChar));
    IngestChron(cfg, st, s);
    if |frames| >= 2 {
      ChronValuesSound(cfg, frames);
      AppendExtends(st.serData, ChronValues(cfg, frames), cfg.adcChannels);
    } else {
      AppendExtends(st.serData, [], cfg.adcChannels);
      assert st.serData + [] == st.serData;
    }
  }

  /** Appending values within the bound extends a sink. */
  lemma AppendExtends(a: seq<int>, vs: seq<int>, bound: int)
    requires forall v :: v in vs ==> 0 <= v <= bound
    ensures Extends(a, a + vs, bound)
  {
    assert (a + vs)[..|a|] == a;
    forall k | |a| <= k < |a + vs| ensures 0 <= (a + vs)[k] <= bound {
      assert (a + vs)[k] == vs[k - |a|];
      assert vs[k - |a|] in vs;
    }
  }

  /** addRaw only ever appends to the sink, and what it appends is a channel
      number in 0..adcChannels (below adcChannels in hist mode). */
  lemma IngestSink(cfg: Config, st: Decoder, s: string, onlyConsole: bool)
    requires cfg.Valid()
    ensures var r := Ingest(cfg, st, s, onlyConsole);
            && Extends(st.serData, r.serData, cfg.adcChannels)
            && (cfg.orderType == Hist ==> Extends(st.serData, r.serData, cfg.adcChannels - 1))
  {
    if |st.serData| <= cfg.maxSize && !onlyConsole {
      var raw := st.rawData + s;
      var st2 := st.(serInput := ConsoleAppend(st.serInput, s, cfg.consoleMemory), rawData := raw);
      match cfg.orderType
      case Chron =>
        ChronSink(cfg, st, s);
      case Hist =>
        var lines := Interior(Split(raw, LineEnd));
        if |lines| >= 1 {
          HistRunSink(cfg, st2, lines);
        }
    }
  }

  /** Every value the hist decoder adds is a valid index for updateData. */
  lemma HistSinkFitsHistogram(cfg: Config, st: Decoder, s: string, onlyConsole: bool)
    requires cfg.Valid() && cfg.orderType == Hist && InRange(st.serData, cfg.adcChannels)
    ensures InRange(Ingest(cfg, st, s, onlyConsole).serData, cfg.adcChannels)
  {
    IngestSink(cfg, st, s, onlyConsole);
    var r := Ingest(cfg, st, s, onlyConsole);
    forall k | 0 <= k < |r.serData| ensures 0 <= r.serData[k] < cfg.adcChannels {
      if k < |st.serData| {
        assert r.serData[k] == r.serData[..|st.serData|][k];
      }
    }
  }

  // ---------------------------------------------------------------------
  // The object

  class SerialData {
    var maxSize: int
    var adcChannels: nat
    var maxLength: int
    var maxHistLength: int
    var eolChar: string
    var orderType: OrderType
    var consoleMemory: nat
    var serInput: string
    var rawData: string
    var serData: seq<int>
    var baseHist: seq<int>

    function Cfg(): Config
      reads this
    {
      Config(maxSize, adcChannels, maxLength, maxHistLength, eolChar, orderType, consoleMemory)
    }

    function State(): Decoder
      reads this
    {
      Decoder(serInput, rawData, serData, baseHist)
    }

    constructor ()
      ensures Cfg() == Config(100000, 4096, 20, 65536 * 2 * 10, ";", Chron, 100000)
      ensures State() == Decoder("", "", [], [])
    {
      maxSize := 100000;
      adcChannels := 4096;
      maxLength := 20;
      maxHistLength := 65536 * 2 * 10;
      eolChar := ";";
      orderType := Chron;
      consoleMemory := 100000;
      rawData := "";
      serInput := "";
      serData := [];
      baseHist := [];
    }

    /** `addRaw(string, onlyConsole)`, with the input already decoded to text. */
    method AddRaw(s: string, onlyConsole: bool)
      requires Cfg().Valid()
      modifies this`serInput, this`rawData, this`serData, this`baseHist
      ensures State() == Ingest(Cfg(), old(State()), s, onlyConsole)
      ensures |old(serData)| > maxSize ==> State() == old(State())
      ensures onlyConsole ==> rawData == old(rawData) && serData == old(serData) && baseHist == old(baseHist)
    {
      if |serData| > maxSize {
        return;  // the sink is saturating
      }
      AddRawData(s);
      if onlyConsole {
        return;
      }
      rawData := rawData + s;
      match orderType
      case Chron => DecodeChron();
      case Hist => DecodeHist();
    }

    /** The 'chron' branch of addRaw. */
    method DecodeChron()
      requires Cfg().Valid()
      modifies this`rawData, this`serData
      ensures State() == ChronDecode(Cfg(), old(State()))
    {
      var stringArr := Interior(Split(rawData, eolChar));
      if |stringArr| <= 1 {
        if |rawData| > maxLength {
          rawData := "";
        }
        return;
      }
      ghost var st0 := State();
      assert stringArr[0..] == stringArr;
      for i := 0 to |stringArr|
        invariant ChronRun(Cfg(), State(), stringArr[i..]) == ChronRun(Cfg(), st0, stringArr)
      {
        var element := stringArr[i];
        assert stringArr[i..][0] == element && stringArr[i..][1..] == stringArr[i + 1..];
        rawData := ReplaceFirst(rawData, element + eolChar);
        var trimString := Trim(element);
        if |trimString| == 0 || |trimString| >= maxLength {
          continue;
        }
        var parsedInt := ParseInt(trimString);
        if parsedInt.None? {
          continue;
        }
        if parsedInt.value < 0 || parsedInt.value > adcChannels {
          continue;
        }
        serData := serData + [parsedInt.value];
      }
    }

    /** The 'hist' branch of addRaw. */
    method DecodeHist()
      requires Cfg().Valid()
      modifies this`rawData, this`serData, this`baseHist
      ensures State() == HistDecode(Cfg(), old(State()))
    {
      var stringArr := Interior(Split(rawData, LineEnd));
      if |stringArr| < 1 {
        if |rawData| > maxHistLength {
          rawData := "";
        }
        return;
      }
      ghost var st0 := State();
      assert stringArr[0..] == stringArr;
      for i := 0 to |stringArr|
        invariant HistRun(Cfg(), State(), stringArr[i..]) == HistRun(Cfg(), st0, stringArr)
      {
        var element := stringArr[i];
        ghost var before := State();
        HistRunStep(Cfg(), before, stringArr, i);
        rawData := ReplaceAll(rawData, element + LineEnd);
        var trimString := Trim(element);
        if |trimString| == 0 || |trimString| >= maxHistLength {
          continue;
        }
        var stringHist := DropLast(Split(trimString, eolChar));
        if |stringHist| != adcChannels {
          continue;
        }
        var numHist := Snapshot(stringHist);
        if |baseHist| == 0 {
          baseHist := numHist;
          return;
        }
        EmitDiff(numHist);
        baseHist := numHist;
      }
    }

    /** The nested `ch`/`num` loops of the 'hist' branch: channel `ch` is
        pushed once per unit of increase over the baseline. */
    method EmitDiff(numHist: seq<int>)
      requires |numHist| == adcChannels
      modifies this`serData
      ensures serData == old(serData) + Emissions(baseHist, numHist, adcChannels)
    {
      var diffHist := Diff(baseHist, numHist);
      for ch := 0 to adcChannels
        invariant serData == old(serData) + Emissions(baseHist, numHist, ch)
      {
        var num := 0;
        while diffHist[ch].Some? && num < diffHist[ch].value
          invariant 0 <= num <= Delta(baseHist, numHist, ch)
          invariant serData == old(serData) + Emissions(baseHist, numHist, ch) + Repeat(ch, num)
        {
          serData := serData + [ch];
          num := num + 1;
        }
      }
    }

    /** `addRawData(string)`: the console keeps the newest `consoleMemory` characters. */
    method AddRawData(s: string)
      modifies this`serInput
      ensures serInput == ConsoleAppend(old(serInput), s, consoleMemory)
      ensures |serInput| <= consoleMemory
    {
      serInput := serInput + s;
      if |serInput| > consoleMemory {
        var toBeDeleted := |serInput| - consoleMemory;
        serInput := serInput[toBeDeleted..];
      }
    }

    /** `getRawData()`. */
    method GetRawData() returns (text: string)
      ensures text == serInput
    {
      text := serInput;
    }

    /** `flushRawData()`. */
    method FlushRawData()
      modifies this`serInput
      ensures serInput == ""
    {
      serInput := "";
    }

    /** `getData()`: hands over the sink and empties it. */
    method GetData() returns (copyArr: seq<int>)
      modifies this`serData
      ensures copyArr == old(serData) && serData == []
    {
      copyArr := serData;
      serData := [];
    }

    /** `flushData()`: drops the undecoded text and the sink, and nothing else. */
    method FlushData()
      modifies this`rawData, this`serData
      ensures rawData == "" && serData == []
    {
      rawData := "";
      serData := [];
    }

    /** `clearBaseHist()`: the next valid hist line becomes the baseline again. */
    method ClearBaseHist()
      modifies this`baseHist
      ensures baseHist == []
    {
      baseHist := [];
    }

    /** `updateData(oldDataArr, newDataArr)`: bumps the histogram in place, or
        a new zero histogram of `adcChannels` entries when it is empty. */
    method UpdateData(oldDataArr: array<int>, newDataArr: seq<int>) returns (arr: array<int>)
      requires InRange(newDataArr, if oldDataArr.Length == 0 then adcChannels else oldDataArr.Length)
      modifies oldDataArr
      ensures oldDataArr.Length != 0 ==> arr == oldDataArr
      ensures oldDataArr.Length == 0 ==> fresh(arr) && arr.Length == adcChannels
      ensures arr[..] == Merge(if oldDataArr.Length == 0 then Zeros(adcChannels) else old(oldDataArr[..]), newDataArr)
    {
      arr := oldDataArr;
      if arr.Length == 0 {
        arr := new int[adcChannels](_ => 0);
      }
      ghost var h0 := arr[..];
      assert h0 == if oldDataArr.Length == 0 then Zeros(adcChannels) else old(oldDataArr[..]);
      assert newDataArr[0..] == newDataArr;
      for i := 0 to |newDataArr|
        invariant arr.Length == |h0|
        invariant Merge(arr[..], newDataArr[i..]) == Merge(h0, newDataArr)
      {
        var value := newDataArr[i];
        assert newDataArr[i..][0] == value && newDataArr[i..][1..] == newDataArr[i + 1..];
        arr[value] := arr[value] + 1;
      }
      assert newDataArr[|newDataArr|..] == [];
    }
  }
}
