/** The JSONL payload file between the converter and the replay, and its loader. */
module Records {
  import opened Hex
  import opened Payload
  import opened Wrappers

  /** One line of the file: an object whose keys may be missing or null, or something else. */
  datatype Line =
    | Blank
    | NotAnObject
    | Record(payload: Option<Object>,  // None: missing, or not an object
             versionedHashes: Option<seq<string>>,
             parentBeaconBlockRoot: Option<string>,
             executionRequests: Option<seq<string>>,
             newpayloadVersion: Option<int>,
             fork: Option<string>)

  /** One recorded block, as the replay driver consumes it. */
  datatype PayloadRecord = PayloadRecord(
    payload: Object,
    blockHash: Option<string>,
    blockNumber: int,
    versionedHashes: Option<seq<string>>,
    parentBeaconBlockRoot: string,
    fork: Option<string>,
    executionRequests: Option<seq<string>>,
    newpayloadVersion: Option<int>)

  function Zeros(n: nat): (s: string)
    ensures |s| == n
  {
    seq(n, _ => '0')
  }

  const ZERO_BEACON_ROOT: string := "0x" + Zeros(64)

  /** `payload.get(key)` for a key that holds a string when it is there. */
  function TextAt(payload: Object, key: Key): Option<string> {
    if key in payload && payload[key].Text? then Some(payload[key].text) else None
  }

  function BlockNumberOf(payload: Object): Result<int> {
    if BlockNumber !in payload then Ok(-1) else
    match payload[BlockNumber]
    case Integer(n) => Ok(n)
    case Text(s) => (match ParseHex(s) case Number(n) => Ok(n) case NotANumber => Err(ValueError))
    case _ => Err(TypeError)
  }

  function LoadLine(line: Line): Result<PayloadRecord>
    requires !line.Blank?
  {
    if line.NotAnObject? || line.payload.None? then Err(ValueError) else
    var payload := line.payload.value;
    match BlockNumberOf(payload)
    case Err(e) => Err(e)
    case Ok(number) =>
      Ok(PayloadRecord(
        payload, TextAt(payload, BlockHash), number, line.versionedHashes,
        if line.parentBeaconBlockRoot.None? then ZERO_BEACON_ROOT else line.parentBeaconBlockRoot.value,
        line.fork, line.executionRequests, line.newpayloadVersion))
  }

  /** What iterating `load_payloads` yields, and the error that ends it early, if any. */
  datatype Loaded = Loaded(records: seq<PayloadRecord>, error: Option<Error>)

  function LoadPayloads(lines: seq<Line>): Loaded {
    if lines == [] then Loaded([], None)
    else if lines[0].Blank? then LoadPayloads(lines[1..])
    else
      match LoadLine(lines[0])
      case Err(e) => Loaded([], Some(e))
      case Ok(record) =>
        var rest := LoadPayloads(lines[1..]);
        Loaded([record] + rest.records, rest.error)
  }

  /** Every line yields its own record, in order, when each loads. */
  lemma {:induction false} LoadsLineByLine(lines: seq<Line>)
    requires forall i | 0 <= i < |lines| :: !lines[i].Blank? && LoadLine(lines[i]).Ok?
    ensures LoadPayloads(lines).error == None && |LoadPayloads(lines).records| == |lines|
    ensures forall i | 0 <= i < |lines| :: LoadPayloads(lines).records[i] == LoadLine(lines[i]).value
  {
    if lines != [] {
      LoadsLineByLine(lines[1..]);
      forall i | 0 < i < |lines|
        ensures LoadPayloads(lines).records[i] == LoadLine(lines[i]).value
      {
        assert lines[i] == lines[1..][i - 1];
      }
    }
  }

  /** Blank lines do not count, wherever they are. */
  lemma {:induction false} BlankLinesAreSkipped(before: seq<Line>, after: seq<Line>)
    ensures LoadPayloads(before + [Blank] + after) == LoadPayloads(before + after)
  {
    var lines := before + [Blank] + after;
    if before == [] {
      assert lines[1..] == after && before + after == after;
    } else {
      assert lines[1..] == before[1..] + [Blank] + after && (before + after)[1..] == before[1..] + after;
      BlankLinesAreSkipped(before[1..], after);
    }
  }

  /** A line that does not load ends the stream with its error; the records before it are yielded, none after. */
  lemma {:induction false} BadLineEndsStream(before: seq<Line>, bad: Line, after: seq<Line>)
    requires LoadPayloads(before).error == None && !bad.Blank? && LoadLine(bad).Err?
    ensures LoadPayloads(before + [bad] + after) == Loaded(LoadPayloads(before).records, Some(LoadLine(bad).error))
  {
    var lines := before + [bad] + after;
    if before != [] {
      assert lines[1..] == before[1..] + [bad] + after;
      BadLineEndsStream(before[1..], bad, after);
    }
  }

  /** What is missing from a line: a zero root stands in for its beacon root, and -1 for its number. */
  lemma MissingValues(payload: Object)
    requires BlockNumber !in payload && BlockHash !in payload
    ensures var line := Record(Some(payload), None, None, None, None, None);
            LoadLine(line).Ok?
            && var r := LoadLine(line).value;
               r.payload == payload && r.blockNumber == -1 && r.blockHash == None && r.fork == None
               && r.versionedHashes == None && r.executionRequests == None && r.newpayloadVersion == None
               && |r.parentBeaconBlockRoot| == 66 && r.parentBeaconBlockRoot[..2] == "0x"
               && forall i | 2 <= i < 66 :: r.parentBeaconBlockRoot[i] == '0'
  {
  }

  /** What fails to load: a line that is no object, has no object for a payload, or no number for a block number. */
  lemma LineLoadsExactlyIf(line: Line)
    requires !line.Blank?
    ensures LoadLine(line).Ok? <==>
            line.Record? && line.payload.Some?
            && (BlockNumber in line.payload.value ==>
                  var number := line.payload.value[BlockNumber];
                  number.Integer? || (number.Text? && ParseHex(number.text).Number?))
    ensures LoadLine(line).Ok? && BlockNumber in line.payload.value ==>
              var number := line.payload.value[BlockNumber];
              LoadLine(line).value.blockNumber
              == if number.Integer? then number.number else ParseHex(number.text).value
    ensures !line.Record? || line.payload.None? ==> LoadLine(line) == Err(ValueError)
  {
  }
}
