/** The header patch of the disassembler (`fixBytecode`): before the target
    code-cache blob is handed back to V8, its version, source and flag hashes
    are overwritten with those of a blob the running V8 has just produced
    itself, so that V8's validation of the cache passes.

    The blob produced by the running V8 (the "reference") is an ordinary
    input here; how it is computed is not modelled. */
module V8Dasm {
  import opened CacheBlob

  /** What `fixBytecode` makes of the target's bytes, given the reference
      blob: the target with the reference's hash range copied in. */
  function Patched(target: seq<byte>, reference: seq<byte>): (r: seq<byte>)
    requires HasHeader(target) && HasHeader(reference)
    ensures |r| == |target|
    ensures forall i :: 0 <= i < |r| && InHeader(i) ==> r[i] == reference[i]
    ensures forall i :: 0 <= i < |r| && !InHeader(i) ==> r[i] == target[i]
  {
    Splice(target, Header(reference))
  }

  /** After the patch the target carries exactly the reference's version,
      source and flag hashes, and its other bytes are those it had. */
  lemma PatchedCarriesReferenceHashes(target: seq<byte>, reference: seq<byte>)
    requires HasHeader(target) && HasHeader(reference)
    ensures HasHeader(Patched(target, reference))
    ensures Header(Patched(target, reference)) == Header(reference)
    ensures Patched(target, reference)[..HeaderStart] == target[..HeaderStart]
    ensures Patched(target, reference)[HeaderEnd..] == target[HeaderEnd..]
  {
  }

  /** Patching twice with the same reference gives the same bytes as
      patching once. */
  lemma PatchIdempotent(target: seq<byte>, reference: seq<byte>)
    requires HasHeader(target) && HasHeader(reference)
    ensures Patched(Patched(target, reference), reference) == Patched(target, reference)
  {
  }

  /** The patch leaves the target entirely unchanged exactly when the target
      already agrees with the reference on the hash range; so patching a
      blob with a reference it was itself produced alongside is a no-op. */
  lemma PatchUnchangedIff(target: seq<byte>, reference: seq<byte>)
    requires HasHeader(target) && HasHeader(reference)
    ensures Patched(target, reference) == target <==>
            target[HeaderStart..HeaderEnd] == reference[HeaderStart..HeaderEnd]
  {
  }

  /** Only the reference's hash range matters: two references give the same
      patched bytes exactly when their hash ranges agree. */
  lemma PatchDependsOnlyOnReferenceHeader(target: seq<byte>, ref1: seq<byte>, ref2: seq<byte>)
    requires HasHeader(target) && HasHeader(ref1) && HasHeader(ref2)
    ensures Patched(target, ref1) == Patched(target, ref2) <==> Header(ref1) == Header(ref2)
  {
  }

  /** The copy loop of `fixBytecode`: bytes `HeaderStart` up to `HeaderEnd`
      of `reference` (the dummy code cache) are copied, one at a time, into
      `target` (the bytecode buffer), which is updated in place. The C++
      never checks the buffer lengths; both must hold index 15. The two
      arrays may be the same one. */
  method PatchHeader(target: array<byte>, reference: array<byte>)
    requires target.Length >= HeaderEnd && reference.Length >= HeaderEnd
    modifies target
    ensures target[..] == Patched(old(target[..]), old(reference[..]))
    ensures forall i :: InHeader(i) ==> target[i] == old(reference[i])
    ensures forall i :: 0 <= i < target.Length && !InHeader(i) ==> target[i] == old(target[i])
    ensures reference[..] == old(reference[..])
  {
    var i := HeaderStart;
    while i < HeaderEnd
      invariant HeaderStart <= i <= HeaderEnd
      invariant forall k :: HeaderStart <= k < i ==> target[k] == old(reference[k])
      invariant forall k :: 0 <= k < target.Length && !(HeaderStart <= k < i) ==> target[k] == old(target[k])
      invariant forall k :: 0 <= k < reference.Length ==> reference[k] == old(reference[k])
    {
      target[i] := reference[i];
      i := i + 1;
    }
  }
}
