# Gamma-MCA: serial decoder, file importers and spectrum rules in Dafny

Gamma-MCA is a browser application for gamma spectroscopy. This project models
three parts of it and proves properties of those models.

1. **The serial stream decoder** `SerialData` (`assets/js/serial.js`), as the
   class `Serial.SerialData`. Text from the instrument builds up in `rawData`.
   `addRaw` cuts it into frames and appends channel numbers to the sink
   `serData`. The console text `serInput` keeps only the newest
   `consoleMemory` characters. There are two framing modes:
   - `chron`: one number per `eolChar`-terminated frame;
   - `hist`: one full histogram per `\r\n` line. The first snapshot becomes
     the baseline `baseHist`. Each later snapshot emits channel `ch` once per
     unit of increase over the baseline.

   Each method is proved to end in the state given by a pure function of the
   old state: `Ingest`, `ChronDecode`, `HistDecode`, `ConsoleAppend`, `Merge`.
   The lemmas then prove what the source promises about those functions.
2. **The file importers** `RawData` (`source/raw-data.ts`), as the class
   `RawData.RawData`.
   - `csvToArray` reads either a histogram file (one value per line) or a
     chronological stream of events, which `histConverter` counts into
     `adcChannels` cells.
   - `checkLines` filters the records and holds the sticky value index
     `tempValIndex`.
   - For `xmlToArray`, only what happens after parsing is modelled. It works
     on an abstract document: spectra, coefficients, sample information.
3. **The rules in `assets/js/main.js`**, in module `App`:
   - the spectrum total;
   - `addLeadingZero`;
   - the drift-compensated refresh delay;
   - the calibration-point packing of `toggleCal`;
   - the field mapping of `importCal`;
   - the port registry of `requestSerial` and `serialDisconnect`;
   - the validations after a file is loaded;
   - `seekClosest`.

Supporting modules:
- `JsString` models the JavaScript string operations the code relies on:
  `trim`, `indexOf`, `split`, `replace`, `replaceAll`, and `pop`/`shift` on the
  split result.
- `JsNumber` models decimal `parseInt`/`parseFloat`. NaN is `None`.
- `Histogram` holds channel histograms and the merge that `updateData` and
  `histConverter` perform.

Two boundary behaviours of the code, which the model keeps:
- Saturation starts when the sink holds *more than* `maxSize` entries
  (`serData.length > maxSize`). A call with exactly `maxSize` entries still
  decodes.
- In chron mode, a value equal to `adcChannels` is accepted. It is one past the
  last histogram cell.

## Model

| member | source | states |
|---|---|---|
| Serial.SerialData.constructor | assets/js/serial.js:14-27 | the defaults: maxSize 100000, 4096 channels, maxLength 20, maxHistLength 2^16·2·10, terminator ';', chron mode, console memory 100000, all buffers empty |
| Serial.SerialData.AddRaw | assets/js/serial.js:28-114 | the new state is `Ingest` of the old one; a sink longer than maxSize leaves the whole state unchanged; with onlyConsole only the console text changes |
| Serial.ConsoleAppend | assets/js/serial.js:115-121 | the console text is the last min(\|old+s\|, consoleMemory) characters of old+s |
| Serial.SerialData.AddRawData | assets/js/serial.js:115-121 | the console text becomes `ConsoleAppend` of the old text and is never longer than consoleMemory |
| Serial.FrameValue | assets/js/serial.js:52-65 | a frame yields a value exactly when its trimmed text has length 1..maxLength-1, parses as an integer, and lies in 0..adcChannels; the value is that integer |
| Serial.SerialData.DecodeChron | assets/js/serial.js:39-67 | the chron loop, which cuts each frame out and pushes the valid values, ends in `ChronDecode` of the old state |
| Serial.ChronStepEffect | assets/js/serial.js:50-66 | one frame: its first occurrence with terminator is cut from the raw text, its value (if any) is appended, nothing else changes |
| Serial.ChronRunEffect | assets/js/serial.js:50-66 | the whole loop: the raw text is the frames cut out in order; the sink grows by the frames' values in frame order; console and baseline are untouched |
| Serial.ChronValuesSound | assets/js/serial.js:53-64 | there are no more values than frames; every value lies in 0..adcChannels and is the value of one of the frames |
| Serial.ChronValuesAppend | assets/js/serial.js:50-66 | the values of earlier frames come out before those of later frames |
| Serial.IngestChron | assets/js/serial.js:38-67 | addRaw in chron mode never decodes the first and the last fragment; with at most one fragment between them nothing is decoded and the raw text is cleared exactly when longer than maxLength; otherwise the sink grows by the inner fragments' values and those fragments are cut out |
| Serial.ChronExciseKeepsTail | assets/js/serial.js:51 | cutting frames that end in a one-character terminator never touches a tail that holds no terminator |
| Serial.ChronKeepsTail | assets/js/serial.js:40-51 | with a one-character terminator and at least two complete frames, the incomplete frame after the last terminator is still at the end of the raw text after decoding |
| Serial.SerialData.DecodeHist | assets/js/serial.js:69-113 | the hist loop ends in `HistDecode` of the old state |
| Serial.HistRunStep | assets/js/serial.js:80-111 | the loop from line i is one step and then the loop from i+1, unless the step set the baseline and ended the call |
| Serial.SerialData.EmitDiff | assets/js/serial.js:104-109 | the nested ch/num loops append exactly `Emissions(baseHist, numHist, adcChannels)` to the sink |
| Serial.EmissionsCount | assets/js/serial.js:104-109 | channel ch < adcChannels is emitted max(0, new[ch] − base[ch]) times; no other value is emitted |
| Serial.EmissionsCountAt | assets/js/serial.js:104-109 | the emission count of a single channel, as a multiset count |
| Serial.EmissionsOccurrences | assets/js/serial.js:105-109 | among the first n channels' events, channel ch occurs Delta(ch) times and any other value never occurs |
| Serial.EmissionsRange | assets/js/serial.js:105-109 | every emitted value is a channel below the channel count |
| Serial.EmissionsSorted | assets/js/serial.js:105-109 | events are emitted in ascending channel order |
| Serial.EmissionsUnchanged | assets/js/serial.js:104-109 | a snapshot equal to the baseline emits nothing |
| Serial.EmissionsExample | assets/js/serial.js:104-109 | baseline [0,0,0] and snapshot [2,0,1] emit [0,0,2] |
| Serial.HistLineShape | assets/js/serial.js:82-99 | a line is decoded exactly when its trimmed text is non-empty, shorter than maxHistLength, and, with the piece after the last terminator dropped, splits into adcChannels fields; each field is its parseInt, with NaN read as 0 |
| Serial.HistRunBaseline | assets/js/serial.js:80-103 | with no baseline and undecodable lines before the first decodable line i: line i becomes the baseline, nothing is emitted, the call ends, and only lines 0..i are cut from the raw text |
| Serial.HistSameSnapshotTwice | assets/js/serial.js:104-110 | feeding the same snapshot twice emits nothing the second time; the baseline is that snapshot |
| Serial.HistStepSink | assets/js/serial.js:80-111 | one hist line only appends channels below adcChannels to the sink and leaves the console alone |
| Serial.HistRunSink | assets/js/serial.js:80-111 | the whole hist loop only appends channels below adcChannels to the sink and leaves the console alone |
| Serial.ChronSink | assets/js/serial.js:50-66 | chron decoding only appends values in 0..adcChannels to the sink |
| Serial.IngestSink | assets/js/serial.js:28-114 | addRaw only ever appends to the sink: values in 0..adcChannels, and below adcChannels in hist mode |
| Serial.HistSinkFitsHistogram | assets/js/serial.js:105-109 | in hist mode, every value in the sink stays a valid updateData index |
| Serial.SerialData.GetRawData | assets/js/serial.js:122-124 | returns the console text |
| Serial.SerialData.FlushRawData | assets/js/serial.js:125-127 | empties the console text |
| Serial.SerialData.GetData | assets/js/serial.js:128-132 | returns the sink in order and leaves it empty |
| Serial.SerialData.FlushData | assets/js/serial.js:133-136 | empties only the raw text and the sink |
| Serial.SerialData.ClearBaseHist | assets/js/serial.js:137-139 | empties the baseline |
| Serial.SerialData.UpdateData | assets/js/serial.js:140-148 | bumps the given array in place, or a fresh array of adcChannels zeros when it is empty; the result is the merge of the batch into it |
| Histogram.MergeCons | assets/js/serial.js:144-146 | a batch that starts with k bumps cell k first |
| Histogram.MergeCounts | assets/js/serial.js:144-146 | each cell rises by the number of its occurrences in the batch |
| Histogram.TotalBump | assets/js/serial.js:145 | one bump raises the total by 1 |
| Histogram.MergeTotal | assets/js/serial.js:144-146 | the total rises by the batch length |
| Histogram.TotalZeros | assets/js/serial.js:142 | a zero histogram has total 0 |
| Histogram.MergeIntoEmpty | assets/js/serial.js:141-147 | on an empty array: adcChannels cells, cell k counts the k's of the batch, total = batch length |
| JsString.TrimStartSpec | assets/js/serial.js:52 | trimStart removes exactly the leading white space |
| JsString.TrimEndSpec | assets/js/serial.js:52 | trimEnd removes exactly the trailing white space |
| JsString.TrimSpec | assets/js/serial.js:52 | trim leaves a slice of the input with only white space around it and none at its own ends |
| JsString.TrimUnchanged | assets/js/serial.js:52 | a string with no white space at either end is its own trim |
| JsString.IndexFromSpec | assets/js/serial.js:51 | the search finds the first occurrence at or after k, and None means there is none |
| JsString.IndexOfSpec | assets/js/serial.js:51 | indexOf finds the first occurrence, and None means there is none |
| JsString.IndexOfFound | assets/js/serial.js:51 | what indexOf finds is an occurrence |
| JsString.Split | assets/js/serial.js:40 | split always gives at least one piece |
| JsString.JoinSplit | assets/js/serial.js:40 | joining the pieces with the separator restores the text |
| JsString.SplitPiecesFree | assets/js/serial.js:40 | no piece contains the separator |
| JsString.SplitFree | source/raw-data.ts:94 | text without the separator splits into itself |
| JsString.SplitLastIsSuffix | assets/js/serial.js:40-41 | the last piece, which pop removes, is a suffix of the text |
| JsString.ReplaceFirst | assets/js/serial.js:51 | replace cuts out the first occurrence, or changes nothing when there is none |
| JsString.ReplaceAll | assets/js/serial.js:81 | replaceAll never lengthens the text |
| JsString.ReplaceAllIsSplitConcat | assets/js/serial.js:81 | replaceAll equals splitting at the pattern and concatenating the pieces |
| JsString.ReplaceAllShortens | assets/js/serial.js:81 | replaceAll leaves the text unchanged exactly when the pattern does not occur |
| JsString.ReplaceFirstKeepsTail | assets/js/serial.js:51 | cutting a pattern whose last character is not in the tail keeps the tail at the end |
| JsNumber.DigitRun | assets/js/serial.js:56 | the digit run is all digits and stops at the first non-digit |
| JsNumber.ParseInt | assets/js/serial.js:56 | parseInt is a number exactly when digits follow the white space and the sign |
| JsNumber.ParseFloat | source/raw-data.ts:96 | parseFloat is a number exactly when integer or fraction digits follow the white space and the sign |
| JsNumber.ParseNumeral | assets/js/main.js:534 | a digit string parses, with parseInt and parseFloat alike, to the value it denotes |
| JsNumber.NatToString | assets/js/main.js:543 | `toString` of a natural number is a non-empty digit string, one digit exactly below 10 |
| JsNumber.ParseIntOfNatToString | assets/js/main.js:543 | parseInt and parseFloat invert toString on naturals |
| JsNumber.DigitsValueLeadingZero | assets/js/main.js:535 | a leading '0' does not change a numeral's value |
| RawData.RawData.constructor | source/raw-data.ts:84-91 | delimiter defaults to ','; adcChannels is 4096; fileType and tempValIndex equal valueIndex |
| RawData.RawData.CheckLines | source/raw-data.ts:93-100 | rejects a record whose trimmed first field is not a number and leaves tempValIndex alone; a numeric one-field record sets tempValIndex to 0; a numeric record is accepted exactly when its field count exceeds the resulting index |
| RawData.RawData.FilterRecords | source/raw-data.ts:120-124 | the filter keeps what `Filter` keeps and leaves tempValIndex where `Filter` ends |
| RawData.FilterIndex | source/raw-data.ts:97 | tempValIndex either stays or falls to 0, and it ends at 0 exactly when it started at 0 or a numeric one-field record came by |
| RawData.FilterKept | source/raw-data.ts:93-100 | kept records are numeric input records with a field at the final index; every numeric record with more fields than the starting index is kept |
| RawData.FilterSound | source/raw-data.ts:93-100 | kept records are numeric records of the input, never more than the input |
| RawData.FilterFields | source/raw-data.ts:97-99 | every kept record has a field at the final value index |
| RawData.FilterComplete | source/raw-data.ts:93-100 | every numeric record with more fields than the starting index is kept |
| RawData.FilterOrder | source/raw-data.ts:93-100 | the filter keeps order and multiplicity: the kept records are exactly the records at the ascending positions i where checkLines accepts record i with the value index it holds at that point |
| RawData.FilterTokens | source/raw-data.ts:124-126 | stream tokens have one field each: numeric tokens are kept and give their values in order |
| RawData.TokenValues | source/raw-data.ts:124-126 | the values of a stream's kept tokens are all numbers |
| RawData.ParseAll | source/raw-data.ts:122 | map gives one value per record |
| RawData.ParseAllAt | source/raw-data.ts:102-105 | value k is parseFloat of record k's trimmed field at the value index |
| RawData.RawData.ParseRecords | source/raw-data.ts:102-105 | the map loop gives `ParseAll` of the records |
| RawData.Channels | source/raw-data.ts:110-112 | cell numbers are in range; there are no more of them than events |
| RawData.ChannelsCount | source/raw-data.ts:107-114 | the number of k's among the cell numbers equals the number of events equal to k; no event is dropped when all are cell numbers |
| RawData.ChannelCountAt | source/raw-data.ts:110-112 | the count of one cell number among the events |
| RawData.AllChannels | source/raw-data.ts:110-112 | no event is dropped when every event is a cell number |
| RawData.ConvertStep | source/raw-data.ts:110-112 | one event bumps its cell, or leaves the cells alone when it is no cell index |
| RawData.RawData.HistConverter | source/raw-data.ts:107-114 | the converter array is adcChannels zeros merged with the events that are cell indices |
| RawData.RawData.CsvToArray | source/raw-data.ts:116-128 | csvToArray resets the value index and then gives `CsvImport`; tempValIndex ends where the filter leaves it |
| RawData.CsvHistogramFile | source/raw-data.ts:119-122 | histogram file: value j is parseFloat of the j-th accepted line, in file order and with repeats kept; line i is accepted exactly when checkLines accepts it with the index it holds then; non-numeric (header) lines give nothing; every numeric line with a field at valueIndex gives a value |
| RawData.CsvEventStream | source/raw-data.ts:123-126 | stream: adcChannels cells; cell k counts the tokens equal to k; total = number of cell tokens, which is every numeric token when all are cells |
| RawData.CoeffMap | source/raw-data.ts:131-135 | coefficients p0,p1,p2 give c1=p2, c2=p1, c3=p0; none leave 0,0,0; two leave c1 undefined; keys past c3 are undefined |
| RawData.RawData.MapCoefficients | source/raw-data.ts:179-181 | the `for … in` loop gives `CoeffMap` |
| RawData.Scaled | source/raw-data.ts:191-195 | weight and volume are present only when the parsed value is > 0, and then equal value × 1000 |
| RawData.MeasurementTime | source/raw-data.ts:159 | 0 without the spectrum element, 1 when it has no MeasurementTime, otherwise the parsed trimmed text |
| RawData.MetaOf | source/raw-data.ts:184-200 | measurement times as above; missing sample info, device name, start and end time read as '' and no weight or volume |
| RawData.RawData.XmlToArray | source/raw-data.ts:130-207 | a failed parse gives empty spectra, default coefficients and default metadata; otherwise the data points of both spectra, `MetaOf`, and `CoeffMap` of the energy spectrum's coefficients |
| App.GetTotalCounts | assets/js/main.js:12-18 | the forEach accumulation gives `Sum` of the data |
| App.SumDefined | assets/js/main.js:12-18 | the sum is a number exactly when every entry is; it is ≥ 0 when no entry is negative; the empty sum is 0 |
| App.SumAppend | assets/js/main.js:12-18 | the total of two concatenated spectra is the sum of their totals |
| App.AddLeadingZero | assets/js/main.js:533-540 | a '0' goes in front exactly when the text parses to a number below 10 |
| App.PaddedLength | assets/js/main.js:533-540 | a non-empty digit string comes out at least two long; it comes out unchanged exactly when it has two or more digits and a value ≥ 10 |
| App.TwoDigits | assets/js/main.js:541-544 | every number below 100 comes out as exactly two digits that parse back to it |
| App.NextDelay | assets/js/main.js:1319-1325 | for a possibly fractional period and whole elapsed milliseconds, the delay is positive; it is the rest of the period when the refresh was quicker than the period, otherwise 1 |
| App.NoDrift | assets/js/main.js:1275-1281 | when every refresh is quicker than the period, the n-th refresh starts exactly n periods after the first |
| App.InvalidCount | assets/js/main.js:404-414 | invalid plus valid pairs make up all pairs |
| App.PackCalibration | assets/js/main.js:399-428 | the error (None) happens exactly when two or more pairs are invalid; otherwise the points are the valid pairs packed into a, b, c |
| App.Padded | assets/js/main.js:420-428 | two valid pairs are padded with −1/−1 and read off as a, b, c |
| App.InvalidCountPrefix | assets/js/main.js:404-419 | a prefix never has more invalid pairs than the whole, so the early return is exact |
| App.Three | assets/js/main.js:406-419 | the valid pairs and the invalid count of three pairs, one pair at a time |
| App.AllPairsValid | assets/js/main.js:406-428 | three valid pairs become a, b, c in input order |
| App.OnePairInvalid | assets/js/main.js:406-428 | with exactly pair j invalid, the other two move up to a and b, and c is −1/−1 |
| App.ImportCal | assets/js/main.js:493-517 | an imported calibration gives its coefficients; otherwise six fields; null (or a null `points`) is the import error |
| App.ImportPoints | assets/js/main.js:503-517 | a point of −1 gives an empty field and any other point is copied; without `points`, or with a number there, the top-level keys are read |
| App.PortRegistry.constructor | assets/js/main.js:27 | the registry starts empty |
| App.PortRegistry.MaxKey | assets/js/main.js:1076-1077 | the largest key of a non-empty registry |
| App.PortRegistry.RequestSerial | assets/js/main.js:1072-1079 | key 0 in an empty registry, otherwise max key + 1; the key was free and only it is added |
| App.PortRegistry.SerialDisconnect | assets/js/main.js:1025-1031 | removes the first key holding the port and nothing else; with no such key the registry is unchanged |
| App.NonZeroCount | assets/js/main.js:188 | the number of coefficients that are not 0 is the length minus the number of zeros (NaN and undefined count as not 0) |
| App.NonZeroCountThree | assets/js/main.js:188 | the count over three coefficients, one at a time |
| App.ImportedCoefficients | assets/js/main.js:188-189 | zero or one XML coefficient never counts as imported; two count exactly when the second is not 0; three exactly when at least two are not 0; with four or more the keys past c3 are undefined and count, so the condition is (N − 3) + the non-zero count of the first three ≥ 2 |
| App.StreamsAgree | assets/js/main.js:221-229 | two stream imports with the same channel count never raise the data error, when no token is a whole number at or above the channel count |
| App.CandidatesWithin | assets/js/main.js:652-657 | every candidate energy is within maxDist of the value |
| App.CandidatesExact | assets/js/main.js:652-658 | the candidates are exactly the parsed keys that are non-empty, numeric and within maxDist |
| App.ReduceFirstClosest | assets/js/main.js:660 | the reduce ends on the first of the closest candidates |
| App.SeekClosestSpec | assets/js/main.js:651-667 | undefined exactly when there is no candidate; otherwise an energy within maxDist, with no candidate closer, and the earliest of equally close ones |

## Left out

- TextDecoder: `addRaw` takes text that is already decoded; UTF-8 decoding and the UTF-16 view of JavaScript strings are not modelled.
- `console.warn` on saturation, `console.error` in `xmlToArray`, and the `port` field of `SerialData`: logging and the serial transport have no state to model.
- JsNumber: `parseInt`/`parseFloat` cover decimal numerals with sign and fraction only. Hexadecimal, exponents, `Infinity` and the rounding of doubles are left out; values are exact.
- App.StreamsAgree: requires that no token is a whole number at or above the channel count. Such a token makes `histConverter` lengthen the JavaScript array, which can raise 'data-error'. The model ignores such tokens (see the `HistConverter` line), so the lemma says nothing about them.
- JsString: `split` requires a non-empty separator, because the empty separator splits into characters. The configuration's `Valid()` demands a non-empty `eolChar` and delimiter.
- RawData.RawData.HistConverter: a whole-number event at or beyond `adcChannels` makes JavaScript grow the array with a NaN cell. The model keeps only the `adcChannels` cells and ignores such an event, as it ignores NaN, negative and fractional events.
- Serial.SerialData.UpdateData: requires every batch value to be a cell index. JavaScript would add a property, or a NaN cell, for any other value; chron mode can emit `adcChannels` itself.
- RawData.RawData.XmlToArray: `DOMParser` and the element lookup are replaced by an abstract document. A parse that threw is `None`.
- `jsonToObject` (`source/raw-data.ts:209-259`): JSON parsing, the schema `fetch` and ZSchema validation depend on the network and a foreign library.
- App.PackCalibration: the `!plot.calibration.imported` guard, `computeCoefficients`, the 'cal-error' notification and reading the DOM inputs are UI. The model takes the six input texts and returns the points, or None for the error.
- App.ImportCal: a field value is the JSON value read; the browser's conversion to text when assigning `.value`, and the `FileReader`, are not modelled.
- `seekClosest` returns the isotope name beside the energy. The lookup `isoList[closest]` is a dictionary read and is not modelled; `SeekClosest` gives the energy.
- The refresh loops model only the delay arithmetic. `setTimeout`, the clocks, counts per second, mean and standard deviation are floating point and timing.
- `listSerial`, `downloadCal`, the plot, toasts, settings persistence and isotope list loading are UI, I/O or storage.
