# v8dasm header patch, modelled in Dafny

v8dasm prints the disassembly of a V8 code-cache blob (the bytes V8's code
serializer writes for a compiled script). V8 refuses to load a cache whose
version hash, source hash and flag hash do not match the running engine, so
before loading the blob, `fixBytecode` has V8 compile a dummy script, serializes
it, and copies bytes 4 up to 16 (the three hashes) of that fresh cache into
the target blob. Nothing else changes. This project models that header patch
and proves what it does to the blob.

- `cache_blob.dfy`, module `CacheBlob`: a blob as a byte sequence.
  It defines the hash range (`HeaderStart` = 4, `HeaderEnd` = 16), reading it
  (`Header`) and writing it (`Splice`). It also proves the laws of that pair:
  what is written is read back, writing back what was read is a no-op, the
  second write wins, and different headers give different blobs.
- `v8dasm.dfy`, module `V8Dasm`: the effect of `fixBytecode` on the
  target's bytes, as the function `Patched`, and the copy loop itself, as the
  in-place method `PatchHeader` on two byte arrays. The method is proved
  against `Patched`. The lemmas give the patch's properties: it is idempotent,
  it is a no-op exactly when the hashes already agree, it preserves the
  payload, and it depends only on the reference's hash range.

The reference buffer (`dummyBytecode->data`, the cache V8 produced for the
dummy script) is an ordinary input array. How V8 computes it is not modelled.

The two offsets are module constants because the C++ loop hard-codes them.
They depend on the V8 version, and changing the two constants retargets every
definition and proof.

## Model

| member | source | states |
|---|---|---|
| CacheBlob.Header | v8dasm.cpp:37-41 | the hash range of a blob is its 12 bytes at offsets 4..15, in order |
| CacheBlob.Splice | v8dasm.cpp:40-42 | writing a header into a blob keeps its length, puts header byte k at offset 4+k and keeps every byte outside 4..15 |
| CacheBlob.HeaderOfSplice | v8dasm.cpp:40-42 | reading the hash range after a splice gives back exactly the spliced header |
| CacheBlob.SplicePreservesPayload | v8dasm.cpp:40-42 | a splice leaves bytes 0..3 and every byte from 16 on unchanged |
| CacheBlob.SpliceUnchangedIff | v8dasm.cpp:40-42 | a splice leaves the blob unchanged iff the blob already carries that header |
| CacheBlob.SpliceTwice | v8dasm.cpp:40-42 | splicing h1 and then h2 gives the same blob as splicing h2 alone |
| CacheBlob.SpliceInjective | v8dasm.cpp:40-42 | two splices into one blob agree iff the headers spliced in are equal |
| V8Dasm.Patched | v8dasm.cpp:34-42 | patched bytes have the target's length, the reference's byte at every offset 4..15, and the target's byte everywhere else |
| V8Dasm.PatchedCarriesReferenceHashes | v8dasm.cpp:37-42 | after the patch the target's version/source/flag hash range equals the reference's, and its prefix and payload are the target's |
| V8Dasm.PatchIdempotent | v8dasm.cpp:40-42 | patching twice with the same reference gives the same bytes as patching once |
| V8Dasm.PatchUnchangedIff | v8dasm.cpp:40-42 | the patch changes nothing iff target and reference already agree on bytes 4..15 |
| V8Dasm.PatchDependsOnlyOnReferenceHeader | v8dasm.cpp:40-42 | two references give the same patched target iff their hash ranges are equal |
| V8Dasm.PatchHeader | v8dasm.cpp:40-42 | the in-place copy loop over arrays of at least 16 bytes leaves the target equal to `Patched` of its old bytes and the reference, copies bytes 4..15, keeps every other byte, and never changes the reference (the two arrays may alias) |

## Left out

- `compileCode` (v8dasm.cpp:25-32): it compiles a script and serializes it through V8. Its result is the `reference` input of `PatchHeader`.
- `runBytecode` (v8dasm.cpp:46-61): it wraps the patched buffer in V8's cached-data object and asks V8 to compile from the cache. Those are foreign calls, and their only visible effect is V8's own disassembly logging.
- Whether V8 accepts the patched cache: that depends on V8's internal layout and flag hash, which are not part of this model.
- `readAllBytes` (v8dasm.cpp:63-74): file I/O.
- `main` and `main1` (v8dasm.cpp:76-137): V8 flag setting, initialization and teardown of the platform and isolate, and allocator ownership.
- `delete dummyBytecode` (v8dasm.cpp:43) and the global `isolate` handle (v8dasm.cpp:23): memory management and engine state, with no logic to state.
- The array length is fixed in Dafny, so "the length is unchanged" holds by the type of `PatchHeader`'s parameters. It is stated for the value model as `|Patched(t, r)| == |t|`.
- PatchHeader: a buffer shorter than 16 bytes makes the loop at v8dasm.cpp:40-41 read and write out of bounds. The C++ never detects or reports this, so `PatchHeader` makes both lengths a `requires` and does not model a short buffer.
