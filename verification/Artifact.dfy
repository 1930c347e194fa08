/**
  `artifact_metrics`: the manifest's blocks must tile the artifact behind its
  header, and the posting bytes found in them must equal the manifest's counter.
  Fields arrive as parsed JSON; `None` is a missing or ill-typed field. All
  lengths and offsets are 64 bit words.
 */
module Artifact {
  import opened Options

  const U64_MAX: nat := 0xFFFF_FFFF_FFFF_FFFF

  type Word = w: nat | w <= U64_MAX

  datatype Kind = Documents | Postings | Unknown
  datatype Block = Block(offset: Option<Word>, length: Option<Word>, kind: Option<Kind>)

  /** `other` stands for the six further numbers that are only copied. */
  datatype Body = Body(
    artifactLen: Option<Word>, blocks: Option<seq<Block>>, layout: Option<string>,
    postingBytes: Option<Word>, legacyPostingBytes: Option<Word>, other: seq<Option<Word>>)

  datatype Metrics = Metrics(artifact: nat, header: nat, documents: nat, postings: nat, legacy: nat)

  datatype Error =
    | MissingField | NoBlocks | NotContiguous | SizeOverflow | UnknownKind
    | ExtentDiffers | PostingsDiffer | EmptyPostings

  function SaturatingAdd(a: Word, b: Word): Word {
    if a + b > U64_MAX then U64_MAX else a + b
  }

  // ----- the exact meaning -----

  predicate WellFormed(b: Block) {
    b.offset.Some? && b.length.Some? && b.kind.Some? && !b.kind.value.Unknown?
  }

  /** The blocks lie one behind the other from `from` to `to`. */
  predicate Tiles(blocks: seq<Block>, from: nat, to: nat) {
    if blocks == [] then from == to
    else
      var b := blocks[0];
      WellFormed(b) && b.offset.value == from && Tiles(blocks[1..], from + b.length.value, to)
  }

  /** The exact number of bytes in blocks of one kind. */
  ghost function Bytes(blocks: seq<Block>, kind: Kind): nat {
    if blocks == [] then 0
    else
      var b := blocks[0];
      (if b.kind == Some(kind) && b.length.Some? then b.length.value else 0) + Bytes(blocks[1..], kind)
  }

  /** Tiling blocks account for every byte between their ends. */
  lemma {:induction false} TilesAddUp(blocks: seq<Block>, from: nat, to: nat)
    requires Tiles(blocks, from, to)
    ensures from + Bytes(blocks, Documents) + Bytes(blocks, Postings) == to
  {
    if blocks != [] {
      TilesAddUp(blocks[1..], from + blocks[0].length.value, to);
    }
  }

  /** No byte between the ends of a tiling is in two blocks, and none is in no block. */
  lemma {:induction false} TilesCoverOnce(blocks: seq<Block>, from: nat, to: nat, at: nat) returns (k: nat)
    requires Tiles(blocks, from, to) && from <= at < to
    ensures k < |blocks| && Covers(blocks[k], at)
    ensures forall i :: 0 <= i < |blocks| && Covers(blocks[i], at) ==> i == k
  {
    var b := blocks[0];
    var next := from + b.length.value;
    if at < next {
      k := 0;
      TilesStartBehind(blocks[1..], next, to);
    } else {
      k := TilesCoverOnce(blocks[1..], next, to, at);
      forall i | 0 <= i < |blocks| && Covers(blocks[i], at) ensures i == k + 1 {
        if i > 0 {
          assert blocks[i] == blocks[1..][i - 1];
        }
      }
      k := k + 1;
    }
  }

  predicate Covers(b: Block, at: nat) {
    b.offset.Some? && b.length.Some? && b.offset.value <= at < b.offset.value + b.length.value
  }

  lemma {:induction false} TilesStartBehind(blocks: seq<Block>, from: nat, to: nat)
    requires Tiles(blocks, from, to)
    ensures forall i :: 0 <= i < |blocks| ==> blocks[i].offset.Some? && blocks[i].offset.value >= from
  {
    if blocks != [] {
      TilesStartBehind(blocks[1..], from + blocks[0].length.value, to);
      forall i | 0 <= i < |blocks| ensures blocks[i].offset.Some? && blocks[i].offset.value >= from {
        if i > 0 {
          assert blocks[i] == blocks[1..][i - 1];
        }
      }
    }
  }

  /** The manifests that `artifact_metrics` accepts. */
  ghost predicate Acceptable(body: Body) {
    && body.artifactLen.Some? && body.blocks.Some? && body.layout.Some?
    && body.postingBytes.Some? && body.legacyPostingBytes.Some?
    && (forall i :: 0 <= i < |body.other| ==> body.other[i].Some?)
    && body.blocks.value != [] && body.blocks.value[0].offset.Some?
    && Tiles(body.blocks.value, body.blocks.value[0].offset.value, body.artifactLen.value)
    && Bytes(body.blocks.value, Postings) == body.postingBytes.value
    && body.postingBytes.value > 0 && body.legacyPostingBytes.value > 0
  }

  /** Why the block behind a tiling up to `end` is refused. */
  ghost predicate BlockFails(b: Block, end: nat, e: Error) {
    match e
    case NotContiguous => b.offset.Some? && b.offset.value != end
    case SizeOverflow => b.offset == Some(end) && b.length.Some? && end + b.length.value > U64_MAX
    case UnknownKind =>
      b.offset == Some(end) && b.length.Some? && end + b.length.value <= U64_MAX && b.kind == Some(Unknown)
    case MissingField =>
      b.offset.None? || (b.offset == Some(end) && (b.length.None? || b.kind.None?))
    case _ => false
  }

  /** The block that ends the walk: all before it tile, and it is refused for `e`. */
  ghost predicate FailsAt(blocks: seq<Block>, header: nat, i: nat, end: nat, e: Error) {
    i < |blocks| && end <= U64_MAX && Tiles(blocks[..i], header, end) && BlockFails(blocks[i], end, e)
  }

  ghost predicate WalkFails(blocks: seq<Block>, header: nat, e: Error) {
    exists i: nat, end: nat :: FailsAt(blocks, header, i, end, e)
  }

  /** Why a manifest is refused. */
  ghost predicate Fails(body: Body, e: Error) {
    match e
    case NoBlocks => body.blocks == Some([])
    case MissingField =>
      || body.artifactLen.None? || body.blocks.None? || body.layout.None?
      || body.postingBytes.None? || body.legacyPostingBytes.None?
      || (exists i :: 0 <= i < |body.other| && body.other[i].None?)
      || exists i :: 0 <= i < |body.blocks.value| &&
           var b := body.blocks.value[i]; b.offset.None? || b.length.None? || b.kind.None?
    case ExtentDiffers =>
      && IsWalked(body)
      && exists end: nat ::
           Tiles(body.blocks.value, body.blocks.value[0].offset.value, end) && body.artifactLen != Some(end)
    case PostingsDiffer =>
      && HasExtent(body) && body.postingBytes.Some? && Bytes(body.blocks.value, Postings) != body.postingBytes.value
    case EmptyPostings => HasExtent(body) && (body.postingBytes == Some(0) || body.legacyPostingBytes == Some(0))
    case _ => IsWalked(body) && WalkFails(body.blocks.value, body.blocks.value[0].offset.value, e)
  }

  ghost predicate IsWalked(body: Body) {
    body.blocks.Some? && body.blocks.value != [] && body.blocks.value[0].offset.Some?
  }

  /** The blocks tile the artifact behind its header. */
  ghost predicate HasExtent(body: Body) {
    && IsWalked(body) && body.artifactLen.Some?
    && Tiles(body.blocks.value, body.blocks.value[0].offset.value, body.artifactLen.value)
  }

  // ----- the loop -----

  datatype Extent = Extent(end: Word, documents: Word, postings: Word)

  /** What the remaining blocks can still do to the tiling, given where the loop stands. */
  lemma TilesStep(blocks: seq<Block>, from: nat, to: nat)
    requires blocks != []
    ensures Tiles(blocks, from, to) <==>
            WellFormed(blocks[0]) && blocks[0].offset.value == from &&
            Tiles(blocks[1..], from + blocks[0].length.value, to)
  {
  }

  lemma {:induction false} TilesAppend(blocks: seq<Block>, from: nat, end: nat, b: Block)
    requires Tiles(blocks, from, end) && WellFormed(b) && b.offset.value == end
    ensures Tiles(blocks + [b], from, end + b.length.value)
  {
    if blocks == [] {
      assert blocks + [b] == [b] && [b][1..] == [];
    } else {
      assert (blocks + [b])[1..] == blocks[1..] + [b];
      TilesAppend(blocks[1..], from + blocks[0].length.value, end, b);
    }
  }

  lemma {:induction false} TilesGrow(blocks: seq<Block>, from: nat, to: nat)
    ensures Tiles(blocks, from, to) ==> from <= to
  {
    if blocks != [] && WellFormed(blocks[0]) {
      TilesGrow(blocks[1..], from + blocks[0].length.value, to);
    }
  }

  lemma {:induction false} BytesOfPrefix(blocks: seq<Block>, i: nat, kind: Kind)
    requires i < |blocks|
    ensures Bytes(blocks[..i + 1], kind) == Bytes(blocks[..i], kind) + Bytes([blocks[i]], kind)
  {
    if i > 0 {
      assert blocks[..i + 1][1..] == blocks[1..][..i] && blocks[..i][1..] == blocks[1..][..i - 1];
      BytesOfPrefix(blocks[1..], i - 1, kind);
    }
  }

  /**
    Walk the blocks. Succeeds exactly when they tile from `header` to some end that
    fits a word; then that end and both totals are exact: no addition saturated.
   */
  method MeasureBlocks(blocks: seq<Block>, header: Word) returns (r: Result<Extent, Error>)
    ensures r.Ok? ==>
              && Tiles(blocks, header, r.value.end)
              && r.value.documents == Bytes(blocks, Documents)
              && r.value.postings == Bytes(blocks, Postings)
    ensures r.Err? ==> forall to: nat :: to <= U64_MAX ==> !Tiles(blocks, header, to)
    ensures r.Err? ==> WalkFails(blocks, header, r.error)
  {
    var end: Word, documents: Word, postings: Word := header, 0, 0;
    for i := 0 to |blocks|
      invariant forall to: nat :: Tiles(blocks, header, to) <==> Tiles(blocks[i..], end, to)
      invariant documents == Bytes(blocks[..i], Documents)
      invariant postings == Bytes(blocks[..i], Postings)
      invariant header + documents + postings == end
      invariant Tiles(blocks[..i], header, end)
    {
      var b := blocks[i];
      forall to: nat ensures Tiles(blocks[i..], end, to) <==>
                        WellFormed(b) && b.offset.value == end && Tiles(blocks[i + 1..], end + b.length.value, to)
      {
        TilesStep(blocks[i..], end, to);
        assert blocks[i..][1..] == blocks[i + 1..];
      }
      BytesOfPrefix(blocks, i, Documents);
      BytesOfPrefix(blocks, i, Postings);
      ghost var from := end;
      if b.offset.None? {
        assert FailsAt(blocks, header, i, from, MissingField);
        return Err(MissingField);
      }
      if b.offset.value != end {
        assert FailsAt(blocks, header, i, from, NotContiguous);
        return Err(NotContiguous);
      }
      if b.length.None? {
        assert FailsAt(blocks, header, i, from, MissingField);
        return Err(MissingField);
      }
      var length := b.length.value;
      if end + length > U64_MAX {
        forall to: nat | to <= U64_MAX ensures !Tiles(blocks, header, to) {
          TilesGrow(blocks[i + 1..], end + length, to);
        }
        assert FailsAt(blocks, header, i, from, SizeOverflow);
        return Err(SizeOverflow);
      }
      end := end + length;
      if b.kind.None? {
        assert FailsAt(blocks, header, i, from, MissingField);
        return Err(MissingField);
      }
      match b.kind.value {
        case Documents => documents := SaturatingAdd(documents, length);
        case Postings => postings := SaturatingAdd(postings, length);
        case Unknown =>
          assert FailsAt(blocks, header, i, from, UnknownKind);
          return Err(UnknownKind);
      }
      TilesAppend(blocks[..i], header, from, b);
      assert blocks[..i + 1] == blocks[..i] + [b];
    }
    assert blocks[..|blocks|] == blocks && blocks[|blocks|..] == [];
    assert Tiles(blocks[|blocks|..], end, end);
    r := Ok(Extent(end, documents, postings));
  }

  /**
    `artifact_metrics` accepts exactly the acceptable manifests, and the numbers it
    reports account for every byte of the artifact.
   */
  method ArtifactMetrics(body: Body) returns (r: Result<Metrics, Error>)
    ensures r.Ok? <==> Acceptable(body)
    ensures r.Ok? ==>
              var m := r.value;
              && m.artifact == body.artifactLen.value && m.header == body.blocks.value[0].offset.value
              && m.header + m.documents + m.postings == m.artifact
              && m.documents == Bytes(body.blocks.value, Documents)
              && m.postings == body.postingBytes.value && m.legacy == body.legacyPostingBytes.value
    ensures r.Err? ==> Fails(body, r.error)
  {
    if body.artifactLen.None? || body.blocks.None? {
      return Err(MissingField);
    }
    var blocks := body.blocks.value;
    if blocks == [] {
      return Err(NoBlocks);
    }
    if blocks[0].offset.None? {
      return Err(MissingField);
    }
    var header := blocks[0].offset.value;
    var measured := MeasureBlocks(blocks, header);
    if measured.Err? {
      return Err(measured.error);
    }
    var extent := measured.value;
    TilesAddUp(blocks, header, extent.end);
    if extent.end != body.artifactLen.value {
      if Tiles(blocks, header, body.artifactLen.value) {
        TilesAddUp(blocks, header, body.artifactLen.value);
      }
      return Err(ExtentDiffers);
    }
    if body.layout.None? || body.postingBytes.None? {
      return Err(MissingField);
    }
    if extent.postings != body.postingBytes.value {
      return Err(PostingsDiffer);
    }
    if body.legacyPostingBytes.None? {
      return Err(MissingField);
    }
    if body.postingBytes.value == 0 || body.legacyPostingBytes.value == 0 {
      return Err(EmptyPostings);
    }
    for i := 0 to |body.other|
      invariant forall k :: 0 <= k < i ==> body.other[k].Some?
    {
      if body.other[i].None? {
        return Err(MissingField);
      }
    }
    r := Ok(Metrics(body.artifactLen.value, header, extent.documents, extent.postings, body.legacyPostingBytes.value));
  }
}
