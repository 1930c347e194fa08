/**
  The two passes over the corpus file: `scan` splits it into lines, records the
  identity, offset and length of each, sorts by identity and refuses duplicates;
  `build` seeks back to each record in that order and pushes the document. The
  JSON decoder is a parameter.
 */
module Corpus {
  import opened Options
  import opened Sorting
  import opened Texts

  const NEWLINE: Byte := 10
  const U64_MAX: nat := 0xFFFF_FFFF_FFFF_FFFF

  datatype Input = Input(id: Text, content: Text)
  datatype Record = Record(id: Text, offset: nat, length: nat)
  datatype Stats = Stats(content: nat, largest: nat, ids: nat)
  datatype Scanned = Scanned(records: seq<Record>, bytes: nat, stats: Stats)
  datatype Error = Undecodable | EmptyId | OffsetOverflow | DuplicateId | CountDiffers | SourceChanged | ShortRead

  type Decoder = Text -> Option<Input>

  // ----- lines -----

  /** Where `read_until` stops when it starts at `i`: behind the next newline, or at the end. */
  function LineEnd(file: Text, i: nat): (end: nat)
    requires i < |file|
    ensures i < end <= |file|
    ensures forall k :: i <= k < end - 1 ==> file[k] != NEWLINE
    ensures end < |file| ==> file[end - 1] == NEWLINE
    decreases |file| - i
  {
    if file[i] == NEWLINE || i + 1 == |file| then i + 1 else LineEnd(file, i + 1)
  }

  function Line(file: Text, offset: nat): Text
    requires offset < |file|
  {
    file[offset..LineEnd(file, offset)]
  }

  // ----- the records of a file -----

  predicate Good(line: Text, decode: Decoder) {
    decode(line).Some? && decode(line).value.id != []
  }

  /** The records and documents of a stretch of the file, unless a line in it is bad. */
  datatype Plan = Bad | Plan(records: seq<Record>, inputs: seq<Input>)

  ghost function Join(a: Plan, b: Plan): Plan {
    if a.Bad? || b.Bad? then Bad else Plan(a.records + b.records, a.inputs + b.inputs)
  }

  /** The one line that starts at `offset`. */
  ghost function PlanLine(file: Text, offset: nat, decode: Decoder): Plan
    requires offset < |file|
  {
    var line := Line(file, offset);
    if Good(line, decode)
    then Plan([Record(decode(line).value.id, offset, |line|)], [decode(line).value])
    else Bad
  }

  /** The lines from `offset` to the end, in file order. */
  ghost function PlanFrom(file: Text, offset: nat, decode: Decoder): Plan
    requires offset <= |file|
    decreases |file| - offset
  {
    if offset == |file| then Plan([], [])
    else Join(PlanLine(file, offset, decode), PlanFrom(file, LineEnd(file, offset), decode))
  }

  ghost predicate AllGood(file: Text, decode: Decoder) {
    PlanFrom(file, 0, decode).Plan?
  }

  ghost function Records(file: Text, decode: Decoder): seq<Record>
    requires AllGood(file, decode)
  {
    PlanFrom(file, 0, decode).records
  }

  ghost function Inputs(file: Text, decode: Decoder): seq<Input>
    requires AllGood(file, decode)
  {
    PlanFrom(file, 0, decode).inputs
  }

  /** From `from`, whole good lines whose ends fit a word lead to `to`. */
  ghost predicate Reaches(file: Text, from: nat, to: nat, decode: Decoder)
    decreases |file| - from
  {
    if from == to then from <= |file|
    else
      && from < |file| && Good(Line(file, from), decode) && LineEnd(file, from) <= U64_MAX
      && Reaches(file, LineEnd(file, from), to, decode)
  }

  /** The line at which the first pass gives up, and why. */
  ghost predicate FailsAt(file: Text, at: nat, decode: Decoder, e: Error) {
    && at < |file| && Reaches(file, 0, at, decode)
    && var decoded := decode(Line(file, at));
       match e
       case Undecodable => decoded.None?
       case EmptyId => decoded.Some? && decoded.value.id == []
       case OffsetOverflow => Good(Line(file, at), decode) && LineEnd(file, at) > U64_MAX
       case _ => false
  }

  lemma {:induction false} ReachesNext(file: Text, from: nat, at: nat, decode: Decoder)
    requires Reaches(file, from, at, decode) && from <= at < |file|
    requires Good(Line(file, at), decode) && LineEnd(file, at) <= U64_MAX
    ensures Reaches(file, from, LineEnd(file, at), decode)
    decreases |file| - from
  {
    if from < at {
      ReachesForward(file, LineEnd(file, from), at, decode);
      ReachesNext(file, LineEnd(file, from), at, decode);
    }
  }

  lemma {:induction false} ReachesForward(file: Text, from: nat, to: nat, decode: Decoder)
    requires Reaches(file, from, to, decode)
    ensures from <= to <= |file|
    decreases |file| - from
  {
    if from != to {
      ReachesForward(file, LineEnd(file, from), to, decode);
    }
  }

  lemma JoinIsAssociative(a: Plan, b: Plan, c: Plan)
    ensures Join(Join(a, b), c) == Join(a, Join(b, c))
  {
    if a.Plan? && b.Plan? && c.Plan? {
      assert (a.records + b.records) + c.records == a.records + (b.records + c.records);
      assert (a.inputs + b.inputs) + c.inputs == a.inputs + (b.inputs + c.inputs);
    }
  }

  lemma JoinWithNothing(a: Plan)
    ensures Join(a, Plan([], [])) == a == Join(Plan([], []), a)
  {
    if a.Plan? {
      assert a.records + [] == a.records && a.inputs + [] == a.inputs;
    }
  }

  /** The records cover the file from `from` to `to` without gap or overlap, and none is empty. */
  ghost predicate Tiles(records: seq<Record>, from: nat, to: nat) {
    if records == [] then from == to
    else records[0].offset == from && records[0].length > 0 && Tiles(records[1..], from + records[0].length, to)
  }

  lemma {:induction false} RecordsTile(file: Text, offset: nat, decode: Decoder)
    requires offset <= |file| && PlanFrom(file, offset, decode).Plan?
    ensures Tiles(PlanFrom(file, offset, decode).records, offset, |file|)
    decreases |file| - offset
  {
    if offset < |file| {
      RecordsTile(file, LineEnd(file, offset), decode);
    }
  }

  /** The record points at a line of the file that decodes to `input`. */
  ghost predicate PointsAt(file: Text, record: Record, input: Input, decode: Decoder) {
    && record.offset + record.length <= |file|
    && decode(file[record.offset..record.offset + record.length]) == Some(input)
    && record.id == input.id
  }

  lemma {:induction false} RecordsPointAtInputs(file: Text, offset: nat, decode: Decoder)
    requires offset <= |file| && PlanFrom(file, offset, decode).Plan?
    ensures var plan := PlanFrom(file, offset, decode);
            && |plan.records| == |plan.inputs|
            && forall i :: 0 <= i < |plan.records| ==> PointsAt(file, plan.records[i], plan.inputs[i], decode)
    decreases |file| - offset
  {
    if offset < |file| {
      RecordsPointAtInputs(file, LineEnd(file, offset), decode);
    }
  }

  // ----- identity order -----

  predicate ById(a: Record, b: Record) {
    TextLe(a.id, b.id)
  }

  lemma ByIdIsOrder()
    ensures Total(ById) && Transitive(ById)
  {
    forall a, b ensures ById(a, b) || ById(b, a) {
      TextLeTotal(a.id, b.id);
    }
    forall a, b, c | ById(a, b) && ById(b, c) ensures ById(a, c) {
      TextLeTransitive(a.id, b.id, c.id);
    }
  }

  /** Every identity is smaller, as a byte string, than all that follow. */
  ghost predicate StrictlyAscending(records: seq<Record>) {
    forall i, j :: 0 <= i < j < |records| ==> Smaller(records[i].id, records[j].id)
  }

  /** Sorted and without equal neighbours is strictly ascending. */
  lemma NeighboursSuffice(records: seq<Record>)
    requires Sorted(records, ById)
    requires forall i :: 0 <= i < |records| - 1 ==> records[i].id != records[i + 1].id
    ensures StrictlyAscending(records)
  {
    forall i, j | 0 <= i < j < |records| ensures Smaller(records[i].id, records[j].id) {
      assert ById(records[i], records[j]);
      TextLeIff(records[i].id, records[j].id);
      if records[i].id == records[j].id && i + 1 < j {
        assert ById(records[i], records[i + 1]) && ById(records[i + 1], records[j]);
        TextLeTotal(records[i].id, records[i + 1].id);
      }
    }
  }

  // ----- scan -----

  function Saturate(x: nat): nat {
    if x > U64_MAX then U64_MAX else x
  }

  function Larger(a: nat, b: nat): nat {
    if a < b then b else a
  }

  /** The running totals after one more document. */
  function AddInput(stats: Stats, input: Input): Stats {
    Stats(Saturate(stats.content + |input.content|),
          Larger(stats.largest, |input.content|), Saturate(stats.ids + |input.id|))
  }

  ghost function ContentBytes(inputs: seq<Input>): nat {
    if inputs == [] then 0 else ContentBytes(inputs[..|inputs| - 1]) + |inputs[|inputs| - 1].content|
  }

  ghost function IdBytes(inputs: seq<Input>): nat {
    if inputs == [] then 0 else IdBytes(inputs[..|inputs| - 1]) + |inputs[|inputs| - 1].id|
  }

  ghost predicate IsLargest(largest: nat, inputs: seq<Input>) {
    && (forall i :: 0 <= i < |inputs| ==> |inputs[i].content| <= largest)
    && (largest == 0 || exists i :: 0 <= i < |inputs| && |inputs[i].content| == largest)
  }

  /** The totals are exact until they meet the word. */
  ghost predicate StatsMatch(stats: Stats, inputs: seq<Input>) {
    && stats.content == Saturate(ContentBytes(inputs))
    && stats.ids == Saturate(IdBytes(inputs))
    && IsLargest(stats.largest, inputs)
  }

  lemma AddInputMatches(stats: Stats, inputs: seq<Input>, input: Input)
    requires StatsMatch(stats, inputs)
    ensures StatsMatch(AddInput(stats, input), inputs + [input])
  {
    var longer := inputs + [input];
    assert longer[..|inputs|] == inputs && longer[|inputs|] == input;
    if |input.content| < stats.largest {
      var i :| 0 <= i < |inputs| && |inputs[i].content| == stats.largest;
      assert longer[i] == inputs[i];
    }
  }

  ghost predicate DistinctIds(records: seq<Record>) {
    forall i, j :: 0 <= i < j < |records| ==> records[i].id != records[j].id
  }

  /** The files that `scan` accepts. */
  ghost predicate Acceptable(file: Text, decode: Decoder) {
    && AllGood(file, decode)
    && |file| <= U64_MAX
    && DistinctIds(Records(file, decode))
  }

  lemma DistinctIdsIgnoreOrder(a: seq<Record>, b: seq<Record>)
    requires DistinctIds(a) && multiset(a) == multiset(b)
    ensures DistinctIds(b)
  {
    DistinctIgnoresOrder(a, b);
    forall i, j | 0 <= i < j < |b| ensures b[i].id != b[j].id {
      SameMembers(a, b, b[i]);
      SameMembers(a, b, b[j]);
      var k :| 0 <= k < |a| && a[k] == b[i];
      var l :| 0 <= l < |a| && a[l] == b[j];
      assert k != l;
    }
  }

  method FirstDuplicate(records: seq<Record>) returns (found: bool)
    ensures found <==> exists i :: 0 <= i < |records| - 1 && records[i].id == records[i + 1].id
  {
    found := false;
    for i := 0 to |records| - (if records == [] then 0 else 1)
      invariant !found && forall k :: 0 <= k < i ==> records[k].id != records[k + 1].id
    {
      if records[i].id == records[i + 1].id {
        found := true;
        return;
      }
    }
  }

  /** Split, decode and index every line. Fails exactly on undecodable lines, empty identities and overflow. */
  method IndexLines(file: Text, decode: Decoder) returns (r: Result<Scanned, Error>)
    ensures r.Ok? <==> AllGood(file, decode) && |file| <= U64_MAX
    ensures r.Ok? ==>
              && r.value.records == Records(file, decode)
              && r.value.bytes == |file|
              && StatsMatch(r.value.stats, Inputs(file, decode))
    ensures r.Err? ==> exists at: nat :: FailsAt(file, at, decode, r.error)
  {
    var offset: nat, stats := 0, Stats(0, 0, 0);
    var records: seq<Record> := [];
    ghost var done, all := Plan([], []), PlanFrom(file, 0, decode);
    JoinWithNothing(all);
    while offset < |file|
      invariant offset <= |file| && offset <= U64_MAX
      invariant all == Join(done, PlanFrom(file, offset, decode))
      invariant done.Plan? && done.records == records && StatsMatch(stats, done.inputs)
      invariant Reaches(file, 0, offset, decode)
    {
      var end, line := LineEnd(file, offset), Line(file, offset);
      var decoded := decode(line);
      if decoded.None? {
        assert FailsAt(file, offset, decode, Undecodable);
        return Err(Undecodable);
      }
      var input := decoded.value;
      if input.id == [] {
        assert FailsAt(file, offset, decode, EmptyId);
        return Err(EmptyId);
      }
      ghost var step := PlanLine(file, offset, decode);
      JoinIsAssociative(done, step, PlanFrom(file, end, decode));
      AddInputMatches(stats, done.inputs, input);
      stats := AddInput(stats, input);
      records := records + [Record(input.id, offset, end - offset)];
      done := Join(done, step);
      if end > U64_MAX {
        assert FailsAt(file, offset, decode, OffsetOverflow);
        return Err(OffsetOverflow);
      }
      ReachesNext(file, 0, offset, decode);
      offset := end;
    }
    JoinWithNothing(done);
    r := Ok(Scanned(records, offset, stats));
  }

  /** `scan`: accepts exactly the acceptable files and orders their records by identity. */
  method Scan(file: Text, decode: Decoder) returns (r: Result<Scanned, Error>)
    ensures r.Ok? <==> Acceptable(file, decode)
    ensures r.Ok? ==>
              && StrictlyAscending(r.value.records)
              && multiset(r.value.records) == multiset(Records(file, decode))
              && r.value.bytes == |file|
              && StatsMatch(r.value.stats, Inputs(file, decode))
    ensures r.Err? ==>
              if r.error.DuplicateId? then AllGood(file, decode) && !DistinctIds(Records(file, decode))
              else exists at: nat :: FailsAt(file, at, decode, r.error)
  {
    var indexed := IndexLines(file, decode);
    if indexed.Err? {
      return indexed;
    }
    var records := Sort(indexed.value.records, ById);
    ByIdIsOrder();
    SortIsSorted(indexed.value.records, ById);
    var duplicate := FirstDuplicate(records);
    if duplicate {
      if DistinctIds(Records(file, decode)) {
        DistinctIdsIgnoreOrder(Records(file, decode), records);
      }
      return Err(DuplicateId);
    }
    NeighboursSuffice(records);
    DistinctIdsIgnoreOrder(records, Records(file, decode));
    r := Ok(indexed.value.(records := records));
  }

  // ----- build -----

  /** What seeking to a record and reading it back yields. */
  function ReadBack(file: Text, record: Record, decode: Decoder): Result<Input, Error> {
    if record.offset + record.length > |file| then Err(ShortRead)
    else
      var decoded := decode(file[record.offset..record.offset + record.length]);
      if decoded.None? then Err(Undecodable)
      else if decoded.value.id != record.id then Err(SourceChanged)
      else Ok(decoded.value)
  }

  /** Record `i` is the first that does not read back, and why. */
  ghost predicate IsFirstLost(file: Text, records: seq<Record>, decode: Decoder, i: int, e: Error) {
    && 0 <= i < |records| && (forall k :: 0 <= k < i ==> ReadBack(file, records[k], decode).Ok?)
    && var from, to := records[i].offset, records[i].offset + records[i].length;
       match e
       case ShortRead => to > |file|
       case Undecodable => to <= |file| && decode(file[from..to]).None?
       case SourceChanged =>
         to <= |file| && decode(file[from..to]).Some? && decode(file[from..to]).value.id != records[i].id
       case _ => false
  }

  /**
    The spooling loop. Whatever the file holds by now, a successful pass pushes one
    document per record, under the record's own identity and in record order.
   */
  method Respool(file: Text, records: seq<Record>, decode: Decoder) returns (r: Result<seq<Input>, Error>)
    ensures r.Ok? <==> forall i :: 0 <= i < |records| ==> ReadBack(file, records[i], decode).Ok?
    ensures r.Ok? ==>
              && |r.value| == |records|
              && forall i :: 0 <= i < |records| ==>
                   ReadBack(file, records[i], decode) == Ok(r.value[i]) && r.value[i].id == records[i].id
    ensures r.Err? ==> exists i :: IsFirstLost(file, records, decode, i, r.error)
  {
    var pushed: seq<Input> := [];
    for i := 0 to |records|
      invariant |pushed| == i
      invariant forall k :: 0 <= k < i ==> ReadBack(file, records[k], decode) == Ok(pushed[k])
    {
      var next := ReadBack(file, records[i], decode);
      if next.Err? {
        assert IsFirstLost(file, records, decode, i, next.error);
        return Err(next.error);
      }
      pushed := pushed + [next.value];
    }
    r := Ok(pushed);
  }

  ghost function Document(file: Text, decode: Decoder): Record -> Input {
    (record: Record) =>
      if ReadBack(file, record, decode).Ok? then ReadBack(file, record, decode).value else Input([], [])
  }

  /**
    Both passes over an unchanged file. It is refused exactly when it is not
    acceptable or does not have the expected number of lines; otherwise the second
    pass never fails, pushes every line of the file exactly once, and does so in
    ascending identity order.
   */
  method Build(file: Text, expected: nat, decode: Decoder) returns (r: Result<seq<Input>, Error>)
    ensures r.Ok? <==> Acceptable(file, decode) && |Inputs(file, decode)| == expected
    ensures r.Ok? ==>
              && multiset(r.value) == multiset(Inputs(file, decode))
              && forall i, j :: 0 <= i < j < |r.value| ==> Smaller(r.value[i].id, r.value[j].id)
    ensures r == Err(CountDiffers) <==> Acceptable(file, decode) && |Inputs(file, decode)| != expected
  {
    var scanned := Scan(file, decode);
    if scanned.Err? {
      return Err(scanned.error);
    }
    var records := scanned.value.records;
    assert |records| == |multiset(records)| == |multiset(Records(file, decode))| == |Records(file, decode)|;
    RecordsPointAtInputs(file, 0, decode);
    if |records| != expected {
      return Err(CountDiffers);
    }
    ghost var inOrder, inputs := Records(file, decode), Inputs(file, decode);
    forall i | 0 <= i < |inOrder| ensures ReadBack(file, inOrder[i], decode) == Ok(inputs[i]) {
      assert PointsAt(file, inOrder[i], inputs[i], decode);
    }
    forall i | 0 <= i < |records| ensures ReadBack(file, records[i], decode).Ok? {
      SameMembers(records, inOrder, records[i]);
    }
    r := Respool(file, records, decode);
    ImageIgnoresOrder(records, r.value, inOrder, inputs, Document(file, decode));
  }
}
