/**
 * ReadTxtData: the text input file is read two lines per record. The first
 * line of a record holds `batch channels height width`; the second holds the
 * flattened payload, every number of which is appended in order. Records are
 * appended to the caller's list, and reading stops after `sample_max_num`
 * records when that flag is positive.
 */
module InputReader {
  import opened Types

  /**
   * One line of the file, already tokenised. `ints` is what successive
   * `stream >> int` extractions from the line yield, `values` what
   * successive `stream >> float` extractions yield (the payload numbers,
   * kept opaque as `V`).
   */
  datatype Line<V> = Line(ints: seq<int32>, values: seq<V>)

  /** struct InputData: the shape of one input and its flat payload. */
  datatype InputData<V> = InputData(
    channels: int32,
    height: int32,
    width: int32,
    batchSize: int32,
    input: seq<V>)

  datatype ReadError = CannotOpen

  /** Every line that starts a record carries the four header integers. */
  predicate HeadersWellFormed<V>(lines: seq<Line<V>>) {
    forall k :: 0 <= k < |lines| && k % 2 == 0 ==> |lines[k].ints| >= 4
  }

  /** The payload of the record whose header is line `h`: empty when the file ends there. */
  function PayloadAfter<V>(lines: seq<Line<V>>, h: nat): seq<V> {
    if h + 1 < |lines| then lines[h + 1].values else []
  }

  /**
   * Reference definition of the records in a file: record `r` takes its
   * header from line `2r` (batch, channels, height, width, in that order)
   * and its payload from line `2r + 1`.
   */
  function Records<V>(lines: seq<Line<V>>): (rs: seq<InputData<V>>)
    requires HeadersWellFormed(lines)
    ensures |rs| == (|lines| + 1) / 2
  {
    seq((|lines| + 1) / 2, r requires 0 <= r < (|lines| + 1) / 2 =>
      var header := lines[2 * r].ints;
      InputData(
        channels := header[1],
        height := header[2],
        width := header[3],
        batchSize := header[0],
        input := PayloadAfter(lines, 2 * r)))
  }

  /** The first `max` records when `max` is positive, all of them otherwise. */
  function Capped<V>(rs: seq<InputData<V>>, max: int32): (r: seq<InputData<V>>)
    ensures r <= rs
    ensures max <= 0 ==> r == rs
    ensures max > 0 ==> |r| == if |rs| < max then |rs| else max as int
  {
    if max > 0 && |rs| > max then rs[..max] else rs
  }

  /**
   * How many lines of an `n`-line file one call reads: the first
   * `2 * max` when `max` is positive and the file is longer, all of them
   * otherwise.
   */
  function ReadLen(n: nat, max: int32): (len: nat)
    ensures len <= n
    ensures max > 0 ==> len <= 2 * max
    ensures len < n ==> max > 0 && len == 2 * max
  {
    if max > 0 && 2 * max < n then 2 * max else n
  }

  /**
   * ReadTxtData(path, input_data_list) with `file` the contents of `path`
   * (None when it cannot be opened) and `sampleMaxNum` the flag. The
   * by-reference list comes in as `inputDataList` and goes out in `r`;
   * an unopenable file is the fatal log, which ends the process. Only the
   * lines before the `break` are read, so only their headers need to be
   * well formed, and the records appended are those of these lines.
   */
  method ReadTxtData<V>(file: Option<seq<Line<V>>>, sampleMaxNum: int32,
                        inputDataList: seq<InputData<V>>)
    returns (r: Result<seq<InputData<V>>, ReadError>)
    requires file.Some? ==> HeadersWellFormed(file.value[..ReadLen(|file.value|, sampleMaxNum)])
    ensures file.None? ==> r == Err(CannotOpen)
    ensures file.Some? ==>
      r == Ok(inputDataList + Records(file.value[..ReadLen(|file.value|, sampleMaxNum)]))
  {
    if file.None? {
      return Err(CannotOpen);
    }
    var lines := file.value;
    ghost var used := lines[..ReadLen(|lines|, sampleMaxNum)];
    ghost var records := Records(used);
    var list := inputDataList;
    var num := 0;
    var next := 0;
    while next < |lines|
      invariant 0 <= num <= |records|
      invariant next == if 2 * num <= |used| then 2 * num else |used|
      invariant next < |lines| ==> next == 2 * num
      invariant list == inputDataList + records[..num]
      invariant sampleMaxNum > 0 ==> num < sampleMaxNum
    {
      assert next < |used| && used[next] == lines[next];
      var header := lines[next];
      next := next + 1;
      var input: seq<V> := [];
      var payload: seq<V> := [];
      if next < |lines| {
        assert next < |used| && used[next] == lines[next];
        payload := lines[next].values;
        next := next + 1;
      }
      assert payload == PayloadAfter(used, 2 * num);
      var t := 0;
      while t < |payload|
        invariant 0 <= t <= |payload|
        invariant input == payload[..t]
      {
        input := input + [payload[t]];
        t := t + 1;
      }
      var inputData := InputData(
        channels := header.ints[1],
        height := header.ints[2],
        width := header.ints[3],
        batchSize := header.ints[0],
        input := input);
      assert inputData == records[num];
      list := list + [inputData];
      num := num + 1;
      if sampleMaxNum > 0 && num >= sampleMaxNum {
        assert records[..num] == records;
        break;
      }
    }
    assert list == inputDataList + records by {
      if next >= |lines| {
        assert records[..num] == records;
      }
    }
    return Ok(list);
  }

  /**
   * For a file whose every header is well formed, what one call appends is
   * the file's records capped at `max`.
   */
  lemma ReadingMatchesCapped<V>(lines: seq<Line<V>>, max: int32)
    requires HeadersWellFormed(lines)
    ensures HeadersWellFormed(lines[..ReadLen(|lines|, max)])
    ensures Records(lines[..ReadLen(|lines|, max)]) == Capped(Records(lines), max)
  {
    var front := lines[..ReadLen(|lines|, max)];
    if |front| == |lines| {
      assert front == lines;
    } else {
      assert HeadersWellFormed(front) by {
        forall k | 0 <= k < |front| && k % 2 == 0
          ensures |front[k].ints| >= 4
        {
          assert front[k] == lines[k];
        }
      }
      var capped, records := Capped(Records(lines), max), Records(front);
      assert |capped| == |records| == max as int;
      forall r | 0 <= r < max as int
        ensures capped[r] == records[r]
      {
        assert front[2 * r] == lines[2 * r];
        assert PayloadAfter(front, 2 * r) == PayloadAfter(lines, 2 * r);
      }
    }
  }

  /**
   * With a positive cap of `m` records, the lines after the first `2m` are
   * never read: whatever follows them, malformed headers included, the
   * same lines are used.
   */
  lemma LaterLinesUnread<V>(lines: seq<Line<V>>, rest: seq<Line<V>>, m: int32)
    requires m > 0 && |lines| == 2 * m
    ensures (lines + rest)[..ReadLen(|lines + rest|, m)] == lines
  {
    assert (lines + rest)[..|lines|] == lines;
  }

  /**
   * A header on the last line of the file still makes a record, with an
   * empty payload: the second getline finds nothing.
   */
  lemma TrailingHeaderRecord<V>(lines: seq<Line<V>>)
    requires HeadersWellFormed(lines) && |lines| % 2 == 1
    ensures Records(lines)[|Records(lines)| - 1].input == []
    ensures Records(lines)[|Records(lines)| - 1].batchSize == lines[|lines| - 1].ints[0]
  {
    assert 2 * (|Records(lines)| - 1) == |lines| - 1;
  }
}
