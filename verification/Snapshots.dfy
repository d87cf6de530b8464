/** The published snapshot: parts in concatenation order, and where a byte offset falls among them. */
module Snapshots {
  /** The value of a SHA-256 computation; only equality matters. */
  type Digest = int

  datatype Part = Part(name: string, bytes: nat, sha256: Digest)

  datatype Snapshot = Snapshot(parts: seq<Part>, sha256: Digest)

  function SumBytes(parts: seq<Part>): nat
    decreases |parts|
  {
    if parts == [] then 0 else SumBytes(parts[..|parts| - 1]) + parts[|parts| - 1].bytes
  }

  /** The offset at which part i begins; past the last part, the length of the whole. */
  function BytesBefore(s: Snapshot, i: nat): nat {
    SumBytes(if i < |s.parts| then s.parts[..i] else s.parts)
  }

  function TotalBytes(s: Snapshot): nat {
    SumBytes(s.parts)
  }

  lemma BytesBeforeNext(s: Snapshot, i: nat)
    requires i < |s.parts|
    ensures BytesBefore(s, i + 1) == BytesBefore(s, i) + s.parts[i].bytes
  {
    assert s.parts[..i + 1][..i] == s.parts[..i];
    if i + 1 == |s.parts| {
      assert s.parts[..i + 1] == s.parts;
    }
  }

  lemma {:induction false} BytesBeforeGrows(s: Snapshot, i: nat, j: nat)
    requires i <= j <= |s.parts|
    ensures BytesBefore(s, i) <= BytesBefore(s, j) <= TotalBytes(s)
    decreases |s.parts| - i, j - i
  {
    if i < j {
      BytesBeforeNext(s, i);
      BytesBeforeGrows(s, i + 1, j);
    } else if j < |s.parts| {
      BytesBeforeNext(s, j);
      BytesBeforeGrows(s, j + 1, j + 1);
    }
  }

  method ComputeTotalBytes(s: Snapshot) returns (total: nat)
    ensures total == TotalBytes(s)
  {
    total := 0;
    for i := 0 to |s.parts|
      invariant total == SumBytes(s.parts[..i])
    {
      assert s.parts[..i + 1][..i] == s.parts[..i];
      total := total + s.parts[i].bytes;
    }
    assert s.parts[..|s.parts|] == s.parts;
  }

  method ComputeBytesBefore(s: Snapshot, i: nat) returns (total: nat)
    ensures total == BytesBefore(s, i)
  {
    total := 0;
    var n := 0;
    while n < i && n < |s.parts|
      invariant n <= i && n <= |s.parts|
      invariant total == BytesBefore(s, n)
    {
      BytesBeforeNext(s, n);
      total := total + s.parts[n].bytes;
      n := n + 1;
    }
  }

  /** A position inside the snapshot: a part and how far into it, or the very end. */
  ghost predicate Position(s: Snapshot, index: nat, within: nat) {
    if index < |s.parts| then within < s.parts[index].bytes else index == |s.parts| && within == 0
  }

  /**
    Which part covers an offset. It answers exactly for the offsets from zero to the total,
    and its answer is the one position that lies at that offset.
   */
  method PartAt(s: Snapshot, offset: int) returns (index: nat, within: int, ok: bool)
    ensures ok <==> 0 <= offset <= TotalBytes(s)
    ensures ok ==> within >= 0 && Position(s, index, within) && BytesBefore(s, index) + within == offset
  {
    if offset < 0 {
      return 0, 0, false;
    }
    var rest := offset;
    for i := 0 to |s.parts|
      invariant rest == offset - BytesBefore(s, i) >= 0
    {
      BytesBeforeNext(s, i);
      BytesBeforeGrows(s, i + 1, |s.parts|);
      if rest < s.parts[i].bytes {
        return i, rest, true;
      }
      rest := rest - s.parts[i].bytes;
    }
    return |s.parts|, 0, rest == 0;
  }

  /** No two positions lie at the same offset, so position and offset determine each other. */
  lemma PositionIsUnique(s: Snapshot, i: nat, v: nat, j: nat, w: nat)
    requires Position(s, i, v) && Position(s, j, w)
    requires BytesBefore(s, i) + v == BytesBefore(s, j) + w
    ensures i == j && v == w
  {
    if i < j {
      BytesBeforeNext(s, i);
      BytesBeforeGrows(s, i + 1, j);
    } else if j < i {
      BytesBeforeNext(s, j);
      BytesBeforeGrows(s, j + 1, i);
    }
  }
}
