/**
 * Checking every checkpoint event against the journal prefix it binds, with one streaming hash over the whole journal
 * (src/runtime/checkpoint-recovery.ts).
 *
 * The hash is any function that absorbs bytes one after the other and is finished without losing its state.
 */
module PrefixHash {
  const CHUNK := 64 * 1024

  datatype Hash<!S, !D> = Hash(init: S, step: (S, bv8) -> S, finish: S -> D)

  function Absorb<S, D>(h: Hash<S, D>, s: S, bytes: seq<bv8>): S {
    if bytes == [] then s else h.step(Absorb(h, s, bytes[..|bytes| - 1]), bytes[|bytes| - 1])
  }

  /** Hashing a byte string from scratch. */
  function Digest<S, D>(h: Hash<S, D>, bytes: seq<bv8>): D { h.finish(Absorb(h, h.init, bytes)) }

  lemma {:induction false} AbsorbInParts<S, D>(h: Hash<S, D>, s: S, a: seq<bv8>, b: seq<bv8>)
    ensures Absorb(h, s, a + b) == Absorb(h, Absorb(h, s, a), b)
  {
    if b == [] {
      assert a + b == a;
    } else {
      assert (a + b)[..|a + b| - 1] == a + b[..|b| - 1];
      AbsorbInParts(h, s, a, b[..|b| - 1]);
    }
  }

  predicate Sorted(ends: seq<nat>) { forall i, j | 0 <= i < j < |ends| :: ends[i] <= ends[j] }

  function Insert(ends: seq<nat>, x: nat): (r: seq<nat>)
    requires Sorted(ends)
    ensures Sorted(r) && forall y :: y in r <==> y in ends || y == x
  {
    if ends == [] || ends[|ends| - 1] <= x then ends + [x]
    else
      var last := ends[|ends| - 1];
      var front := Insert(ends[..|ends| - 1], x);
      assert ends == ends[..|ends| - 1] + [last];
      assert forall i | 0 <= i < |front| :: front[i] in front && front[i] <= last;
      front + [last]
  }

  /**
   * One pass over the bytes, in chunks, remembers the digest of every requested prefix. It is the digest of hashing
   * that prefix from scratch, for any number of prefixes and wherever the chunks fall.
   */
  method PrefixDigests<S, D>(h: Hash<S, D>, bytes: seq<bv8>, ends: seq<nat>) returns (digests: map<nat, D>)
    requires Sorted(ends) && forall end <- ends :: end <= |bytes|
    ensures forall end :: end in digests <==> end in ends
    ensures forall end <- digests :: end <= |bytes| && digests[end] == Digest(h, bytes[..end])
  {
    digests := map[];
    var state, offset := h.init, 0;
    for k := 0 to |ends|
      invariant offset <= |bytes| && (forall i | k <= i < |ends| :: offset <= ends[i])
      invariant state == Absorb(h, h.init, bytes[..offset])
      invariant forall end :: end in digests <==> end in ends[..k]
      invariant forall end <- digests :: end <= |bytes| && digests[end] == Digest(h, bytes[..end])
    {
      var end := ends[k];
      assert end in ends;
      while offset < end
        invariant offset <= end <= |bytes| && state == Absorb(h, h.init, bytes[..offset])
      {
        var next := if end < offset + CHUNK then end else offset + CHUNK;
        AbsorbInParts(h, h.init, bytes[..offset], bytes[offset..next]);
        assert bytes[..offset] + bytes[offset..next] == bytes[..next];
        state := Absorb(h, state, bytes[offset..next]);
        offset := next;
      }
      digests := digests[end := h.finish(state)];
    }
    assert ends[..|ends|] == ends;
  }

  // ----- Validating every checkpoint event.

  /** The parts of a checkpoint event that bind it to its place, and whatever else it says, as a text. */
  datatype Binding<D> = Binding(
    frame: string, prefixBytes: nat, prefixEvents: nat, prefixDigest: D, payloadBytes: int, nextIteration: nat,
    rest: string)

  /** A checkpoint event is named after the hash of the canonical text of all its other fields. */
  datatype Entry<D> =
    | CellEntry(frame: string, iteration: nat)
    | CheckpointEntry(binding: Binding<D>, id: D)
    | OtherEntry

  /** Where an event's bytes begin, if the scan of the journal recorded it. */
  datatype Position = Position(eventIndex: nat, prefixBytes: nat)

  datatype Journal<D> = Journal(bytes: seq<bv8>, entries: seq<Entry<D>>, positions: seq<Position>) {
    ghost predicate Valid() {
      forall p <- positions :: p.prefixBytes <= |bytes|
    }
  }

  /** The event binds exactly the bytes before it, fits its bound, names itself, and directly follows its root cell. */
  predicate Binds<S, D(==)>(h: Hash<S, D>, canonical: Binding<D> -> seq<bv8>, j: Journal<D>, limit: nat, k: nat)
    requires k < |j.entries| && j.Valid()
  {
    j.entries[k].CheckpointEntry? ==>
      var b := j.entries[k].binding;
      && k < |j.positions| && j.positions[k].eventIndex == k
      && b.prefixBytes == j.positions[k].prefixBytes && b.prefixEvents == k
      && b.prefixDigest == Digest(h, j.bytes[..b.prefixBytes])
      && 1 <= b.payloadBytes <= limit
      && j.entries[k].id == Digest(h, canonical(b))
      && k > 0 && j.entries[k - 1].CellEntry?
      && j.entries[k - 1].frame == b.frame && j.entries[k - 1].iteration + 1 == b.nextIteration
  }

  function Prefixes<D>(j: Journal<D>, n: nat): (r: seq<nat>)
    requires n <= |j.entries| && j.Valid()
    ensures Sorted(r) && forall end <- r :: end <= |j.bytes|
    ensures forall k | 0 <= k < n && k < |j.positions| && j.entries[k].CheckpointEntry? :: j.positions[k].prefixBytes in r
  {
    if n == 0 then []
    else
      var rest := Prefixes(j, n - 1);
      if j.entries[n - 1].CheckpointEntry? && n - 1 < |j.positions| then
        assert j.positions[n - 1] in j.positions;
        Insert(rest, j.positions[n - 1].prefixBytes)
      else rest
  }

  /** The checks on one event, against the remembered digests. */
  predicate CheckEvent<S, D(==)>(h: Hash<S, D>, canonical: Binding<D> -> seq<bv8>, j: Journal<D>, limit: nat, k: nat,
                                 digests: map<nat, D>)
    requires k < |j.entries| && j.Valid()
  {
    j.entries[k].CheckpointEntry? ==>
      var b := j.entries[k].binding;
      && k < |j.positions| && j.positions[k].eventIndex == k
      && b.prefixBytes == j.positions[k].prefixBytes && b.prefixEvents == k
      && j.positions[k].prefixBytes in digests && b.prefixDigest == digests[j.positions[k].prefixBytes]
      && 1 <= b.payloadBytes <= limit
      && j.entries[k].id == Digest(h, canonical(b))
      && k > 0 && j.entries[k - 1].CellEntry?
      && j.entries[k - 1].frame == b.frame && j.entries[k - 1].iteration + 1 == b.nextIteration
  }

  /** The streaming validator accepts exactly the journals whose every checkpoint event binds its own prefix. */
  method ValidateEveryCheckpointEvent<S, D(==)>(h: Hash<S, D>, canonical: Binding<D> -> seq<bv8>, j: Journal<D>,
                                                limit: nat)
    returns (ok: bool)
    requires j.Valid()
    ensures ok <==> forall k | 0 <= k < |j.entries| :: Binds(h, canonical, j, limit, k)
  {
    var digests := PrefixDigests(h, j.bytes, Prefixes(j, |j.entries|));
    for k := 0 to |j.entries|
      invariant forall i | 0 <= i < k :: Binds(h, canonical, j, limit, i)
    {
      var bound := CheckEvent(h, canonical, j, limit, k, digests);
      assert bound <==> Binds(h, canonical, j, limit, k);
      if !bound { return false; }
    }
    return true;
  }
}
