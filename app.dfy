/** The rules of assets/js/main.js that are more than UI wiring: the spectrum
    total, the date-string padding, the drift-compensated refresh delay, the
    packing of calibration points, the mapping of an imported calibration
    file onto the input fields, the keys of the serial-port registry, the
    checks run after a file is loaded, and the search for the closest
    isotope energy. */
module App {
  import opened Wrappers
  import opened JsNumber
  import opened RawData
  import JsString

  // ---------------------------------------------------------------------
  // SpectrumData.getTotalCounts

  /** JS addition on numbers that may be NaN: NaN absorbs everything. */
  function Add(a: Number, b: Number): Number {
    if a.Some? && b.Some? then Some(a.value + b.value) else None
  }

  /** The sum of the entries, left to right, starting from 0. */
  function Sum(data: seq<Number>): Number
    decreases |data|
  {
    if |data| == 0 then Some(0.0) else Add(Sum(data[..|data| - 1]), data[|data| - 1])
  }

  /** `getTotalCounts(data)`: `sum += item` for every item. */
  method GetTotalCounts(data: seq<Number>) returns (sum: Number)
    ensures sum == Sum(data)
  {
    sum := Some(0.0);
    for i := 0 to |data|
      invariant sum == Sum(data[..i])
    {
      assert data[..i + 1][..i] == data[..i];
      sum := Add(sum, data[i]);
    }
    assert data[..|data|] == data;
  }

  /** The sum is a number exactly when every entry is, and then it is not
      negative when no entry is. */
  lemma {:induction false} SumDefined(data: seq<Number>)
    ensures Sum(data).Some? <==> forall k :: 0 <= k < |data| ==> data[k].Some?
    ensures (forall k :: 0 <= k < |data| ==> data[k].Some? && data[k].value >= 0.0) ==> Sum(data).value >= 0.0
    decreases |data|
  {
    if |data| > 0 {
      var init := data[..|data| - 1];
      SumDefined(init);
      assert forall k :: 0 <= k < |init| ==> init[k] == data[k];
    }
  }

  /** The total of two concatenated spectra is the sum of their totals. */
  lemma {:induction false} SumAppend(a: seq<Number>, b: seq<Number>)
    ensures Sum(a + b) == Add(Sum(a), Sum(b))
    decreases |b|
  {
    if |b| == 0 {
      assert a + b == a;
    } else {
      var b0 := b[..|b| - 1];
      assert (a + b)[..|a + b| - 1] == a + b0;
      SumAppend(a, b0);
    }
  }

  // ---------------------------------------------------------------------
  // addLeadingZero

  /** `addLeadingZero(number)`: a '0' in front exactly when the text parses
      to a number below 10. */
  function AddLeadingZero(number: string): (r: string)
    ensures ParseFloat(number).Some? && ParseFloat(number).value < 10.0 ==> r == "0" + number
    ensures !(ParseFloat(number).Some? && ParseFloat(number).value < 10.0) ==> r == number
  {
    var v := ParseFloat(number);
    if v.Some? && v.value < 10.0 then "0" + number else number
  }

  /** A non-empty run of digits is padded to two characters or more. */
  lemma PaddedLength(s: string)
    requires |s| > 0 && AllDigits(s)
    ensures |AddLeadingZero(s)| >= 2
    ensures AddLeadingZero(s) == s <==> |s| >= 2 && DigitsValue(s) >= 10
  {
    ParseNumeral(s);
    if |s| == 1 {
      assert DigitsValue(s) == DigitValue(s[0]) by {
        assert s[..0] == [];
      }
    } else {
      DigitsValueAtLeast(s);
    }
  }

  /** The value of a numeral of two or more digits is at least 10 unless it
      starts with a '0'. */
  lemma {:induction false} DigitsValueAtLeast(s: string)
    requires |s| >= 2 && AllDigits(s)
    ensures s[0] != '0' ==> DigitsValue(s) >= 10
    decreases |s|
  {
    var init := s[..|s| - 1];
    if |s| > 2 {
      assert init[0] == s[0];
      DigitsValueAtLeast(init);
    } else {
      assert init[..0] == [];
      assert DigitsValue(init) == DigitValue(s[0]);
    }
  }

  /** `getDateString` pads the month, day, hour and minute: every number
      below 100 comes out as exactly two digits that read back as itself. */
  lemma TwoDigits(n: nat)
    requires n < 100
    ensures var r := AddLeadingZero(NatToString(n));
            |r| == 2 && AllDigits(r) && ParseInt(r) == Some(n)
  {
    var s := NatToString(n);
    ParseIntOfNatToString(n);
    DigitsValueOfNatToString(n);
    if n < 10 {
      var r := "0" + s;
      assert AllDigits(r);
      DigitsValueLeadingZero(s);
      ParseNumeral(r);
    } else {
      assert |s| == 2 by {
        assert NatToString(n) == NatToString(n / 10) + ['0' + (n % 10) as char];
      }
    }
  }

  // ---------------------------------------------------------------------
  // refreshRender / refreshMeta

  /** The delay before the next refresh after one that took `elapsed`
      whole milliseconds (a difference of `Date.getTime()` values) against
      a period of `rate` milliseconds, which may be fractional (the setting
      in seconds times 1000): the rest of the period, or 1 ms when the period
      is already used up. */
  function NextDelay(rate: real, elapsed: int): (d: real)
    ensures d > 0.0
    ensures elapsed as real < rate ==> elapsed as real + d == rate
    ensures elapsed as real >= rate ==> d == 1.0
  {
    if rate - elapsed as real > 0.0 then rate - elapsed as real else 1.0
  }

  /** The refresh loop does not drift: as long as every refresh is quicker
      than the period, the n-th one starts exactly n periods after the first. */
  lemma {:induction false} NoDrift(rate: real, elapsed: seq<int>)
    requires forall k :: 0 <= k < |elapsed| ==> 0 <= elapsed[k] && elapsed[k] as real < rate
    ensures Schedule(rate, elapsed) == |elapsed| as real * rate
    decreases |elapsed|
  {
    if |elapsed| > 0 {
      NoDrift(rate, elapsed[..|elapsed| - 1]);
      assert |elapsed| as real * rate == (|elapsed| - 1) as real * rate + rate;
    }
  }

  /** The start of the refresh after the given ones, counted from the first
      start: each refresh runs for its time and then waits `NextDelay`. */
  function Schedule(rate: real, elapsed: seq<int>): real
    decreases |elapsed|
  {
    if |elapsed| == 0 then 0.0
    else
      var last := elapsed[|elapsed| - 1];
      Schedule(rate, elapsed[..|elapsed| - 1]) + last as real + NextDelay(rate, last)
  }

  // ---------------------------------------------------------------------
  // toggleCal

  /** The six values of `plot.calibration.points`. */
  datatype CalPoints = CalPoints(aFrom: real, aTo: real, bFrom: real, bTo: real, cFrom: real, cTo: real)

  /** The texts of one (adc, energy) input pair. */
  datatype Readout = Readout(adc: string, energy: string)

  /** Both texts of a pair after `parseFloat`. */
  datatype Reading = Reading(adc: Number, energy: Number)

  /** A valid pair as numbers. */
  datatype Point = Point(adc: real, energy: real)

  /** `parseFloat` of both texts of every input pair. */
  function Parsed(readouts: seq<Readout>): (r: seq<Reading>)
    ensures |r| == |readouts|
    ensures forall k :: 0 <= k < |readouts| ==> r[k] == Reading(ParseFloat(readouts[k].adc), ParseFloat(readouts[k].energy))
  {
    seq(|readouts|, k requires 0 <= k < |readouts| => Reading(ParseFloat(readouts[k].adc), ParseFloat(readouts[k].energy)))
  }

  /** A pair with a text that does not parse. */
  predicate Invalid(p: Reading) {
    p.adc.None? || p.energy.None?
  }

  /** The point of a valid pair. */
  function PointOf(p: Reading): Point
    requires !Invalid(p)
  {
    Point(p.adc.value, p.energy.value)
  }

  /** The valid pairs, in input order. */
  function ValidPairs(pairs: seq<Reading>): seq<Point>
    decreases |pairs|
  {
    if |pairs| == 0 then []
    else
      var last := pairs[|pairs| - 1];
      ValidPairs(pairs[..|pairs| - 1]) + (if Invalid(last) then [] else [PointOf(last)])
  }

  /** The number of invalid pairs. */
  function InvalidCount(pairs: seq<Reading>): (n: nat)
    ensures n + |ValidPairs(pairs)| == |pairs|
    decreases |pairs|
  {
    if |pairs| == 0 then 0
    else InvalidCount(pairs[..|pairs| - 1]) + (if Invalid(pairs[|pairs| - 1]) then 1 else 0)
  }

  /** The calibration points from two or three valid pairs: the valid pairs
      fill a, b, c in order, and a missing c is -1/-1. */
  function Points(valid: seq<Point>): CalPoints
    requires 2 <= |valid| <= 3
  {
    var c := if |valid| == 3 then valid[2] else Point(-1.0, -1.0);
    CalPoints(valid[0].adc, valid[0].energy, valid[1].adc, valid[1].energy, c.adc, c.energy)
  }

  /** The point-packing block of `toggleCal(true)` on the three
      (adc, energy) input pairs: None is the 'cal-error' notification. */
  method PackCalibration(readoutArray: seq<Readout>) returns (r: Option<CalPoints>)
    requires |readoutArray| == 3
    ensures r.None? <==> InvalidCount(Parsed(readoutArray)) >= 2
    ensures r.Some? ==> r.value == Points(ValidPairs(Parsed(readoutArray)))
  {
    ghost var parsed := Parsed(readoutArray);
    var invalid := 0;
    var validArray: seq<Point> := [];
    for i := 0 to |readoutArray|
      invariant invalid == InvalidCount(parsed[..i]) && validArray == ValidPairs(parsed[..i])
      invariant invalid <= 1
    {
      var float1 := ParseFloat(readoutArray[i].adc);
      var float2 := ParseFloat(readoutArray[i].energy);
      PackStep(parsed, i, Reading(float1, float2));
      if float1.None? || float2.None? {
        invalid := invalid + 1;
      } else {
        validArray := validArray + [Point(float1.value, float2.value)];
      }
      if invalid > 1 {
        InvalidCountPrefix(parsed, i + 1);
        return None;
      }
    }
    WholePrefix(parsed);
    ghost var valid := validArray;
    if |validArray| == 2 {
      validArray := validArray + [Point(-1.0, -1.0)];
    }
    Padded(valid, validArray);
    r := Some(ReadOff(validArray));
  }

  /** `aFrom = validArray[0][0]`, ... `cTo = validArray[2][1]`. */
  function ReadOff(padded: seq<Point>): CalPoints
    requires |padded| == 3
  {
    CalPoints(padded[0].adc, padded[0].energy, padded[1].adc, padded[1].energy, padded[2].adc, padded[2].energy)
  }

  /** Two valid pairs padded with -1/-1, or three, read off as a, b, c. */
  lemma Padded(valid: seq<Point>, padded: seq<Point>)
    requires 2 <= |valid| <= 3
    requires padded == if |valid| == 2 then valid + [Point(-1.0, -1.0)] else valid
    ensures |padded| == 3 && ReadOff(padded) == Points(valid)
  {
  }

  /** The prefix of all pairs is all pairs. */
  lemma WholePrefix(parsed: seq<Reading>)
    ensures InvalidCount(parsed[..|parsed|]) == InvalidCount(parsed)
    ensures ValidPairs(parsed[..|parsed|]) == ValidPairs(parsed)
  {
    assert parsed[..|parsed|] == parsed;
  }

  /** One more pair read by the packing loop. */
  lemma PackStep(parsed: seq<Reading>, i: nat, p: Reading)
    requires i < |parsed| && parsed[i] == p
    ensures InvalidCount(parsed[..i + 1]) == InvalidCount(parsed[..i]) + (if Invalid(p) then 1 else 0)
    ensures ValidPairs(parsed[..i + 1]) == ValidPairs(parsed[..i]) + (if Invalid(p) then [] else [PointOf(p)])
  {
    assert parsed[..i + 1][..i] == parsed[..i];
  }

  /** Counting the invalid pairs of a prefix never gives more than of the whole. */
  lemma {:induction false} InvalidCountPrefix(pairs: seq<Reading>, i: nat)
    requires i <= |pairs|
    ensures InvalidCount(pairs[..i]) <= InvalidCount(pairs)
    decreases |pairs| - i
  {
    if i < |pairs| {
      PackStep(pairs, i, pairs[i]);
      InvalidCountPrefix(pairs, i + 1);
    } else {
      WholePrefix(pairs);
    }
  }

  /** The valid pairs and the invalid count of three pairs, one at a time. */
  lemma Three(pairs: seq<Reading>)
    requires |pairs| == 3
    ensures ValidPairs(pairs) == (if Invalid(pairs[0]) then [] else [PointOf(pairs[0])])
                               + (if Invalid(pairs[1]) then [] else [PointOf(pairs[1])])
                               + (if Invalid(pairs[2]) then [] else [PointOf(pairs[2])])
    ensures InvalidCount(pairs) == (if Invalid(pairs[0]) then 1 else 0) + (if Invalid(pairs[1]) then 1 else 0)
                                 + (if Invalid(pairs[2]) then 1 else 0)
  {
    assert pairs[..1][..0] == [];
    assert pairs[..2][..1] == pairs[..1];
    assert pairs[..3] == pairs;
    assert InvalidCount(pairs[..1]) == (if Invalid(pairs[0]) then 1 else 0);
    assert ValidPairs(pairs[..1]) == (if Invalid(pairs[0]) then [] else [PointOf(pairs[0])]);
  }

  /** With all three pairs valid they become a, b and c in order. */
  lemma AllPairsValid(pairs: seq<Reading>)
    requires |pairs| == 3 && !Invalid(pairs[0]) && !Invalid(pairs[1]) && !Invalid(pairs[2])
    ensures InvalidCount(pairs) == 0
    ensures |ValidPairs(pairs)| == 3
    ensures Points(ValidPairs(pairs)) == CalPoints(pairs[0].adc.value, pairs[0].energy.value,
              pairs[1].adc.value, pairs[1].energy.value, pairs[2].adc.value, pairs[2].energy.value)
  {
    Three(pairs);
    assert ValidPairs(pairs) == [PointOf(pairs[0]), PointOf(pairs[1]), PointOf(pairs[2])];
  }

  /** With exactly the pair at `j` invalid, the other two move up to a and b
      and c is -1/-1. */
  lemma OnePairInvalid(pairs: seq<Reading>, j: nat)
    requires |pairs| == 3 && j < 3 && Invalid(pairs[j])
    requires (j != 0 ==> !Invalid(pairs[0])) && (j != 1 ==> !Invalid(pairs[1])) && (j != 2 ==> !Invalid(pairs[2]))
    ensures InvalidCount(pairs) == 1
    ensures var x := if j == 0 then 1 else 0;
            var y := if j == 2 then 1 else 2;
            Points(ValidPairs(pairs)) == CalPoints(pairs[x].adc.value, pairs[x].energy.value,
              pairs[y].adc.value, pairs[y].energy.value, -1.0, -1.0)
  {
    Three(pairs);
  }

  // ---------------------------------------------------------------------
  // importCal

  /** A JSON value; a missing key reads as `undefined`, None. */
  datatype Json = JNull | JBool(b: bool) | JNum(n: real) | JStr(s: string) | JArr(items: seq<Json>) | JObj(fields: map<string, Json>)

  /** `v[key]` on a parsed value: only objects have keys. */
  function Member(v: Json, key: string): Option<Json> {
    if v.JObj? && key in v.fields then Some(v.fields[key]) else None
  }

  /** JavaScript truthiness. */
  predicate Truthy(v: Option<Json>) {
    match v
    case None => false
    case Some(JNull) => false
    case Some(JBool(b)) => b
    case Some(JNum(n)) => n != 0.0
    case Some(JStr(s)) => |s| > 0
    case Some(_) => true
  }

  /** What an input field receives: '' for a point of -1, or the value read. */
  datatype Field = Cleared | Copied(value: Option<Json>)

  /** The outcome of `importCal`: the coefficients of an imported
      calibration, the six input fields, or the 'cal-import-error'
      notification (a TypeError on `null`). */
  datatype CalImport = Imported(coeff: Option<Json>) | Fields(fields: seq<Field>) | ImportError

  const InputNames := ["aFrom", "aTo", "bFrom", "bTo", "cFrom", "cTo"]

  /** The value `importCal` puts into the input field for `name`. */
  function FieldFor(obj: Json, name: string): Field
    requires Member(obj, "points") != Some(JNull)
  {
    var points := Member(obj, "points");
    if points.None? || points.value.JNum? then Copied(Member(obj, name))
    else
      var value := Member(points.value, name);
      if value == Some(JNum(-1.0)) then Cleared else Copied(value)
  }

  /** `importCal` on a parsed calibration file. */
  function ImportCal(obj: Json): (r: CalImport)
    ensures obj == JNull ==> r == ImportError
    ensures obj != JNull && Truthy(Member(obj, "imported")) ==> r == Imported(Member(obj, "coeff"))
    ensures r.ImportError? <==> obj == JNull || (!Truthy(Member(obj, "imported")) && Member(obj, "points") == Some(JNull))
    ensures r.Fields? ==> |r.fields| == 6
  {
    if obj == JNull then ImportError
    else if Truthy(Member(obj, "imported")) then Imported(Member(obj, "coeff"))
    else if Member(obj, "points") == Some(JNull) then ImportError
    else Fields(seq(6, k requires 0 <= k < 6 => FieldFor(obj, InputNames[k])))
  }

  /** A calibration file in the points format: a point of -1 gives an empty
      field and every other point is copied; without `points`, or with a
      number there, the top-level keys are read instead. */
  lemma ImportPoints(obj: Json)
    requires obj.JObj? && !Truthy(Member(obj, "imported")) && Member(obj, "points") != Some(JNull)
    ensures var r := ImportCal(obj);
            var points := Member(obj, "points");
            && r.Fields?
            && (forall k :: 0 <= k < 6 && points.Some? && points.value.JObj? ==>
                  (r.fields[k] == Cleared <==> Member(points.value, InputNames[k]) == Some(JNum(-1.0))))
            && (forall k :: (0 <= k < 6 && points.Some? && points.value.JObj?
                               && Member(points.value, InputNames[k]) != Some(JNum(-1.0))) ==>
                  r.fields[k] == Copied(Member(points.value, InputNames[k])))
            && (forall k :: 0 <= k < 6 && (points.None? || points.value.JNum?) ==>
                  r.fields[k] == Copied(Member(obj, InputNames[k])))
  {
  }

  /** The values `oldCalVals` keeps after an import: the three adc fields. */
  function OldCalVals(fields: seq<Field>): (r: seq<Field>)
    requires |fields| == 6
    ensures |r| == 3 && forall k :: 0 <= k < 3 ==> r[k] == fields[2 * k]
  {
    [fields[0], fields[2], fields[4]]
  }

  // ---------------------------------------------------------------------
  // requestSerial / serialDisconnect

  /** `portsAvail`: the ports the user granted, under integer keys. */
  class PortRegistry<P(==)> {
    var ports: map<nat, P>

    constructor()
      ensures ports == map[]
    {
      ports := map[];
    }

    /** `Math.max(...keys)`. */
    method MaxKey() returns (m: nat)
      requires ports != map[]
      ensures m in ports && forall k :: k in ports ==> k <= m
    {
      var rest := ports.Keys;
      var k0 :| k0 in rest;
      m := k0;
      while rest != {}
        invariant rest <= ports.Keys && m in ports
        invariant forall k :: k in ports && k !in rest ==> k <= m
        decreases |rest|
      {
        var k :| k in rest;
        if k > m {
          m := k;
        }
        rest := rest - {k};
      }
    }

    /** `requestSerial()` once the browser granted `port`: key 0 in an empty
        registry, otherwise one more than the largest key; the new key was
        free, and nothing else changes. */
    method RequestSerial(port: P) returns (key: nat)
      modifies this
      ensures key !in old(ports) && ports == old(ports)[key := port]
      ensures old(ports) == map[] ==> key == 0
      ensures old(ports) != map[] ==> key - 1 in old(ports) && forall k :: k in old(ports) ==> k < key
    {
      if ports == map[] {
        key := 0;
      } else {
        var max := MaxKey();
        key := max + 1;
      }
      ports := ports[key := port];
    }

    /** `serialDisconnect` for a port that went away: the first key in key
        order that holds it is removed, and nothing else. */
    method SerialDisconnect(target: P)
      modifies this
      ensures (forall k :: k in old(ports) ==> old(ports)[k] != target) ==> ports == old(ports)
      ensures forall k :: (k in old(ports) && old(ports)[k] == target
                           && forall j :: j in old(ports) && old(ports)[j] == target ==> k <= j) ==>
                ports == old(ports) - {k}
    {
      var rest := ports.Keys;
      var found: Option<nat> := None;
      while rest != {}
        invariant rest <= ports.Keys
        invariant found.Some? ==> found.value in ports && ports[found.value] == target
        invariant found.Some? ==> forall j :: j in ports && j !in rest && ports[j] == target ==> found.value <= j
        invariant found.None? ==> forall j :: j in ports && j !in rest ==> ports[j] != target
        decreases |rest|
      {
        var k :| k in rest;
        if ports[k] == target && (found.None? || k < found.value) {
          found := Some(k);
        }
        rest := rest - {k};
      }
      if found.Some? {
        ports := ports - {found.value};
      }
    }
  }

  // ---------------------------------------------------------------------
  // getFileData

  /** `Object.values(coeff).filter(value => value !== 0).length`: NaN and
      undefined are not 0. */
  function NonZeroCount(coeff: seq<Coeff>): (n: nat)
    ensures n <= |coeff|
    ensures n == |coeff| - multiset(coeff)[Num(0.0)]
    decreases |coeff|
  {
    if |coeff| == 0 then 0
    else
      assert coeff == [coeff[0]] + coeff[1..];
      (if coeff[0] != Num(0.0) then 1 else 0) + NonZeroCount(coeff[1..])
  }

  /** An XML calibration is taken over when at least two of its
      coefficients are not 0. */
  predicate CalibrationImported(coeff: seq<Coeff>) {
    NonZeroCount(coeff) >= 2
  }

  /** The count over three coefficients, one at a time. */
  lemma NonZeroCountThree(c: seq<Coeff>)
    requires |c| == 3
    ensures NonZeroCount(c) == (if c[0] != Num(0.0) then 1 else 0) + (if c[1] != Num(0.0) then 1 else 0)
                               + (if c[2] != Num(0.0) then 1 else 0)
  {
    assert c[1..][1..][1..] == [];
    assert NonZeroCount(c[2..]) == (if c[2] != Num(0.0) then 1 else 0);
    assert c[1..][1..] == c[2..];
  }

  /** The consequence of the reversed coefficient mapping: no coefficient or
      a single one never counts as imported, two count exactly when the
      second one is not 0 (c1 is undefined), and three exactly when at least
      two of them are not 0. */
  lemma ImportedCoefficients(nums: seq<Number>)
    ensures |nums| <= 1 ==> !CalibrationImported(CoeffMap(nums))
    ensures |nums| == 2 ==> (CalibrationImported(CoeffMap(nums)) <==> ToCoeff(nums[1]) != Num(0.0))
    ensures |nums| == 3 ==> (CalibrationImported(CoeffMap(nums)) <==>
              (if ToCoeff(nums[0]) != Num(0.0) then 1 else 0) + (if ToCoeff(nums[1]) != Num(0.0) then 1 else 0)
              + (if ToCoeff(nums[2]) != Num(0.0) then 1 else 0) >= 2)
    ensures |nums| >= 4 ==> (CalibrationImported(CoeffMap(nums)) <==>
              (|nums| - 3) + (if ToCoeff(nums[0]) != Num(0.0) then 1 else 0)
              + (if ToCoeff(nums[1]) != Num(0.0) then 1 else 0) + (if ToCoeff(nums[2]) != Num(0.0) then 1 else 0) >= 2)
  {
    var c := CoeffMap(nums);
    if |nums| <= 3 {
      NonZeroCountThree(c);
    } else {
      NonZeroCountThree(c[..3]);
      assert c == c[..3] + c[3..];
      assert Num(0.0) !in c[3..];
      assert c[..3] == [ToCoeff(nums[2]), ToCoeff(nums[1]), ToCoeff(nums[0])];
    }
    if |nums| == 1 {
      assert c[0] == CoeffAt(nums, 2) == Undefined;
    }
  }

  /** The 'data-error' check after a file is loaded: the spectrum and the
      background disagree in length while neither is empty. */
  predicate DataError(dataLength: nat, backgroundLength: nat) {
    !(backgroundLength == dataLength || dataLength == 0 || backgroundLength == 0)
  }

  /** Two chronological-stream imports with the same channel count never
      raise the data error, as long as no token is a whole number at or above
      the channel count (such a token would lengthen the array). */
  lemma StreamsAgree(valueIndex: nat, delim: string, adc: nat, data: string, background: string)
    requires |delim| > 0
    requires forall e :: e in TokenValues(JsString.Split(data, delim)) && e.value.Floor as real == e.value ==> e.value < adc as real
    requires forall e :: e in TokenValues(JsString.Split(background, delim)) && e.value.Floor as real == e.value ==> e.value < adc as real
    ensures var d := CsvImport(valueIndex, delim, 0, adc, data);
            var b := CsvImport(valueIndex, delim, 0, adc, background);
            d.Counts? && b.Counts? && !DataError(|d.counts|, |b.counts|)
  {
    CsvEventStream(valueIndex, delim, 0, adc, data);
    CsvEventStream(valueIndex, delim, 0, adc, background);
  }

  // ---------------------------------------------------------------------
  // seekClosest

  function Abs(x: real): real {
    if x < 0.0 then -x else x
  }

  /** The energies of the isotope list, in key order, that are within
      `maxDist` of `value`; an empty key or one that does not parse is
      skipped. */
  function Candidates(keys: seq<string>, value: real, maxDist: real): seq<real>
    decreases |keys|
  {
    if |keys| == 0 then []
    else
      (if Close(keys[0], value, maxDist) then [ParseFloat(keys[0]).value] else [])
      + Candidates(keys[1..], value, maxDist)
  }

  /** Every candidate is within `maxDist` of `value`. */
  lemma CandidatesWithin(keys: seq<string>, value: real, maxDist: real)
    ensures forall c :: c in Candidates(keys, value, maxDist) ==> Abs(c - value) <= maxDist
  {
    forall c | c in Candidates(keys, value, maxDist) ensures Abs(c - value) <= maxDist {
      CandidatesExact(keys, value, maxDist, c);
    }
  }

  /** A key `filter` keeps: not empty, and a number within `maxDist`. */
  predicate Close(key: string, value: real, maxDist: real) {
    |key| > 0 && ParseFloat(key).Some? && Abs(ParseFloat(key).value - value) <= maxDist
  }

  /** The candidates are exactly the energies of the keys that pass the filter. */
  lemma {:induction false} CandidatesExact(keys: seq<string>, value: real, maxDist: real, c: real)
    ensures c in Candidates(keys, value, maxDist) <==>
            exists k :: 0 <= k < |keys| && Close(keys[k], value, maxDist) && ParseFloat(keys[k]) == Some(c)
    decreases |keys|
  {
    if |keys| > 0 {
      CandidatesExact(keys[1..], value, maxDist, c);
      if exists k :: 0 <= k < |keys| && Close(keys[k], value, maxDist) && ParseFloat(keys[k]) == Some(c) {
        var k :| 0 <= k < |keys| && Close(keys[k], value, maxDist) && ParseFloat(keys[k]) == Some(c);
        if k > 0 {
          assert keys[1..][k - 1] == keys[k];
        }
      }
      if exists k :: 0 <= k < |keys[1..]| && Close(keys[1..][k], value, maxDist) && ParseFloat(keys[1..][k]) == Some(c) {
        var k :| 0 <= k < |keys[1..]| && Close(keys[1..][k], value, maxDist) && ParseFloat(keys[1..][k]) == Some(c);
        assert keys[k + 1] == keys[1..][k];
      }
    }
  }

  /** `closeValsNum.reduce(...)` with accumulator `prev`: a later candidate
      replaces it only when strictly closer. */
  function Reduce(prev: real, rest: seq<real>, value: real): real
    decreases |rest|
  {
    if |rest| == 0 then prev
    else Reduce(if Abs(rest[0] - value) < Abs(prev - value) then rest[0] else prev, rest[1..], value)
  }

  /** `seekClosest(value).energy`; None is `undefined`. */
  function SeekClosest(keys: seq<string>, value: real, maxDist: real): Option<real>
  {
    var cands := Candidates(keys, value, maxDist);
    if |cands| > 0 then Some(Reduce(cands[0], cands[1..], value)) else None
  }

  /** `xs[i]` is the first of the entries of `xs` closest to `value`. */
  predicate FirstClosest(xs: seq<real>, i: int, value: real) {
    && 0 <= i < |xs|
    && (forall j :: 0 <= j < |xs| ==> Abs(xs[i] - value) <= Abs(xs[j] - value))
    && (forall j :: 0 <= j < i ==> Abs(xs[i] - value) < Abs(xs[j] - value))
  }

  /** The reduction ends on the first of the closest entries. */
  lemma {:induction false} ReduceFirstClosest(xs: seq<real>, value: real) returns (i: nat)
    requires |xs| > 0
    ensures FirstClosest(xs, i, value) && xs[i] == Reduce(xs[0], xs[1..], value)
    decreases |xs|
  {
    if |xs| == 1 {
      i := 0;
    } else if Abs(xs[1] - value) < Abs(xs[0] - value) {
      var k := ReduceFirstClosest(xs[1..], value);
      assert xs[1..][1..] == xs[2..];
      i := k + 1;
      CloserFirst(xs, value, k);
    } else {
      var ys := [xs[0]] + xs[2..];
      assert ys[1..] == xs[2..];
      var k := ReduceFirstClosest(ys, value);
      i := if k == 0 then 0 else k + 1;
      KeptFirst(xs, value, k, i);
    }
  }

  /** The step of the reduction where the second entry replaces the first. */
  lemma CloserFirst(xs: seq<real>, value: real, k: nat)
    requires |xs| >= 2 && Abs(xs[1] - value) < Abs(xs[0] - value)
    requires FirstClosest(xs[1..], k, value)
    ensures FirstClosest(xs, k + 1, value)
  {
    assert Abs(xs[k + 1] - value) <= Abs(xs[1] - value) by {
      assert xs[1..][0] == xs[1];
    }
    forall j | 1 <= j < |xs|
      ensures Abs(xs[k + 1] - value) <= Abs(xs[j] - value)
      ensures j < k + 1 ==> Abs(xs[k + 1] - value) < Abs(xs[j] - value)
    {
      assert xs[j] == xs[1..][j - 1];
    }
  }

  /** The step of the reduction where the first entry stays. */
  lemma KeptFirst(xs: seq<real>, value: real, k: nat, i: nat)
    requires |xs| >= 2 && Abs(xs[0] - value) <= Abs(xs[1] - value)
    requires FirstClosest([xs[0]] + xs[2..], k, value)
    requires i == if k == 0 then 0 else k + 1
    ensures FirstClosest(xs, i, value)
  {
    var ys := [xs[0]] + xs[2..];
    assert xs[i] == ys[k];
    assert Abs(ys[k] - value) <= Abs(ys[0] - value);
    forall j | 2 <= j < |xs|
      ensures Abs(xs[i] - value) <= Abs(xs[j] - value)
      ensures j < i ==> Abs(xs[i] - value) < Abs(xs[j] - value)
    {
      assert xs[j] == ys[j - 1];
    }
  }

  /** `seekClosest` finds an energy exactly when some key is a number within
      `maxDist`; the energy found is such a candidate, no other candidate is
      closer, and the earliest of equally close ones wins. */
  lemma SeekClosestSpec(keys: seq<string>, value: real, maxDist: real)
    ensures var cands := Candidates(keys, value, maxDist);
            var r := SeekClosest(keys, value, maxDist);
            && (r.None? <==> |cands| == 0)
            && (r.Some? ==> Abs(r.value - value) <= maxDist
                            && exists i :: FirstClosest(cands, i, value) && cands[i] == r.value)
  {
    var cands := Candidates(keys, value, maxDist);
    if |cands| > 0 {
      var i := ReduceFirstClosest(cands, value);
      CandidateWithin(keys, value, maxDist, i);
    }
  }

  /** Candidate `k` is within `maxDist` of `value`. */
  lemma CandidateWithin(keys: seq<string>, value: real, maxDist: real, k: nat)
    requires k < |Candidates(keys, value, maxDist)|
    ensures Abs(Candidates(keys, value, maxDist)[k] - value) <= maxDist
  {
    CandidatesWithin(keys, value, maxDist);
    assert Candidates(keys, value, maxDist)[k] in Candidates(keys, value, maxDist);
  }
}
