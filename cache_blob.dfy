/** The byte layout of a V8 code-cache blob, as far as the disassembler
    depends on it: a fixed header range holding the version hash, the source
    hash and the flag hash, and everything else (the rest of the header and
    the bytecode payload), which is passed through untouched. The offsets are
    those of the V8 version the disassembler was written for; other versions
    may place the hashes elsewhere.

    A blob is modelled as a sequence of bytes. `Header` reads the hash range
    out of a blob and `Splice` writes a header range into a blob; the lemmas
    below are the laws that make "copy the header of one blob into another"
    well behaved: what is written is what is read back, writing back what was
    read changes nothing, and a second write replaces the first. */
module CacheBlob {

  /** One byte of a buffer (`uint8_t` in the C++). */
  newtype byte = x: int | 0 <= x < 256

  /** First offset of the hash range (the version hash). */
  const HeaderStart: nat := 4
  /** One past the last offset of the hash range (the flag hash ends here). */
  const HeaderEnd: nat := 16
  /** Number of bytes in the hash range. */
  const HeaderSize: nat := HeaderEnd - HeaderStart

  /** True when `b` is long enough to hold the whole hash range. */
  predicate HasHeader(b: seq<byte>)
  {
    HeaderEnd <= |b|
  }

  /** True when `i` is an offset inside the hash range. */
  predicate InHeader(i: int)
  {
    HeaderStart <= i < HeaderEnd
  }

  /** The hash range of a blob: its bytes at offsets `HeaderStart` up to
      `HeaderEnd`, in order. */
  function Header(b: seq<byte>): (h: seq<byte>)
    requires HasHeader(b)
    ensures |h| == HeaderSize
    ensures forall k :: 0 <= k < HeaderSize ==> h[k] == b[HeaderStart + k]
  {
    b[HeaderStart..HeaderEnd]
  }

  /** The blob `b` with its hash range replaced by `h`, byte for byte. Every
      offset outside the range keeps its byte, and the length is unchanged. */
  function Splice(b: seq<byte>, h: seq<byte>): (r: seq<byte>)
    requires HasHeader(b) && |h| == HeaderSize
    ensures |r| == |b|
    ensures forall i :: 0 <= i < |b| && InHeader(i) ==> r[i] == h[i - HeaderStart]
    ensures forall i :: 0 <= i < |b| && !InHeader(i) ==> r[i] == b[i]
  {
    b[..HeaderStart] + h + b[HeaderEnd..]
  }

  /** Get after put: the hash range of a spliced blob is the header that was
      spliced in. */
  lemma HeaderOfSplice(b: seq<byte>, h: seq<byte>)
    requires HasHeader(b) && |h| == HeaderSize
    ensures HasHeader(Splice(b, h))
    ensures Header(Splice(b, h)) == h
  {
  }

  /** Payload preservation: splicing leaves the bytes before the hash range
      and the bytes after it (the rest of the header and the bytecode payload)
      exactly as they were. */
  lemma SplicePreservesPayload(b: seq<byte>, h: seq<byte>)
    requires HasHeader(b) && |h| == HeaderSize
    ensures Splice(b, h)[..HeaderStart] == b[..HeaderStart]
    ensures Splice(b, h)[HeaderEnd..] == b[HeaderEnd..]
  {
  }

  /** Put after get: splicing a header into a blob changes nothing exactly
      when the blob already carries that header. In particular splicing a
      blob's own header back into it is a no-op. */
  lemma SpliceUnchangedIff(b: seq<byte>, h: seq<byte>)
    requires HasHeader(b) && |h| == HeaderSize
    ensures Splice(b, h) == b <==> Header(b) == h
  {
  }

  /** Put after put: a second splice overrides the first, whatever header the
      first one wrote. */
  lemma SpliceTwice(b: seq<byte>, h1: seq<byte>, h2: seq<byte>)
    requires HasHeader(b) && |h1| == HeaderSize && |h2| == HeaderSize
    ensures Splice(Splice(b, h1), h2) == Splice(b, h2)
  {
  }

  /** Two splices into the same blob give the same bytes exactly when they
      splice in the same header: the header is the only thing a splice
      contributes. */
  lemma SpliceInjective(b: seq<byte>, h1: seq<byte>, h2: seq<byte>)
    requires HasHeader(b) && |h1| == HeaderSize && |h2| == HeaderSize
    ensures Splice(b, h1) == Splice(b, h2) <==> h1 == h2
  {
    HeaderOfSplice(b, h1);
    HeaderOfSplice(b, h2);
  }
}
