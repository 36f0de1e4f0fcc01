/** The two bounded body readers: `readBoundedBody` (`runtime-listener.ts`) and the capture loop of
    `createReportingHttpListener` (`http-adapter.ts`). */
module Bodies {
  newtype byte = x: int | 0 <= x < 256

  type Chunk = seq<byte>

  /** The body that was sent. */
  function Flatten(chunks: seq<Chunk>): seq<byte> {
    if chunks == [] then [] else chunks[0] + Flatten(chunks[1..])
  }

  lemma {:induction false} FlattenAppend(chunks: seq<Chunk>, c: Chunk)
    ensures Flatten(chunks + [c]) == Flatten(chunks) + c
  {
    if chunks == [] {
      assert chunks + [c] == [c];
      assert [c][1..] == [];
    } else {
      FlattenAppend(chunks[1..], c);
      assert (chunks + [c])[1..] == chunks[1..] + [c];
      assert chunks[0] + (Flatten(chunks[1..]) + c) == chunks[0] + Flatten(chunks[1..]) + c;
    }
  }

  lemma {:induction false} FlattenConcat(a: seq<Chunk>, b: seq<Chunk>)
    ensures Flatten(a + b) == Flatten(a) + Flatten(b)
  {
    if a == [] {
      assert a + b == b;
    } else {
      FlattenConcat(a[1..], b);
      assert (a + b)[1..] == a[1..] + b;
      assert a[0] + (Flatten(a[1..]) + Flatten(b)) == a[0] + Flatten(a[1..]) + Flatten(b);
    }
  }

  lemma TakeFlatten(chunks: seq<Chunk>, n: nat)
    requires n <= |chunks|
    ensures Flatten(chunks[..n]) <= Flatten(chunks)
  {
    assert chunks == chunks[..n] + chunks[n..];
    FlattenConcat(chunks[..n], chunks[n..]);
  }

  /** Copies a chunk into the body at an offset. */
  method SetAt(body: array<byte>, chunk: Chunk, offset: nat)
    requires offset + |chunk| <= body.Length
    modifies body
    ensures body[offset..offset + |chunk|] == chunk
    ensures body[..offset] == old(body[..offset])
  {
    var i := 0;
    while i < |chunk|
      invariant 0 <= i <= |chunk|
      invariant body[offset..offset + i] == chunk[..i]
      invariant body[..offset] == old(body[..offset])
    {
      body[offset + i] := chunk[i];
      i := i + 1;
    }
    assert chunk[..i] == chunk;
  }

  /** The fill loop both readers end with. */
  method Join(chunks: seq<Chunk>, total: nat) returns (body: array<byte>)
    requires total == |Flatten(chunks)|
    ensures fresh(body) && body[..] == Flatten(chunks)
  {
    body := new byte[total];
    var offset := 0;
    var i := 0;
    while i < |chunks|
      invariant 0 <= i <= |chunks|
      invariant offset == |Flatten(chunks[..i])| <= total
      invariant body.Length == total && body[..offset] == Flatten(chunks[..i])
    {
      FlattenAppend(chunks[..i], chunks[i]);
      assert chunks[..i] + [chunks[i]] == chunks[..i + 1];
      TakeFlatten(chunks, i + 1);
      SetAt(body, chunks[i], offset);
      assert body[..offset + |chunks[i]|] == body[..offset] + body[offset..offset + |chunks[i]|];
      offset := offset + |chunks[i]|;
      i := i + 1;
    }
    assert chunks[..i] == chunks;
    assert body[..offset] == body[..];
  }

  /** `readBoundedBody`: the exact body if it fits the cap; otherwise a prefix of it that is longer than the
      cap by at most the chunk that crossed it. */
  method ReadBoundedBody(chunks: seq<Chunk>, cap: nat) returns (body: array<byte>)
    ensures fresh(body)
    ensures |Flatten(chunks)| <= cap ==> body[..] == Flatten(chunks)
    ensures |Flatten(chunks)| > cap ==>
      && cap < body.Length && body[..] <= Flatten(chunks)
      && exists k :: 0 <= k < |chunks| && body[..] == Flatten(chunks[..k + 1]) && body.Length <= cap + |chunks[k]|
  {
    var kept: seq<Chunk> := [];
    var total := 0;
    var i := 0;
    while i < |chunks| && total <= cap
      invariant 0 <= i <= |chunks| && kept == chunks[..i] && total == |Flatten(kept)|
      invariant total > cap ==> i > 0 && total <= cap + |chunks[i - 1]|
    {
      FlattenAppend(kept, chunks[i]);
      assert chunks[..i] + [chunks[i]] == chunks[..i + 1];
      kept := kept + [chunks[i]];
      total := total + |chunks[i]|;
      i := i + 1;
    }
    TakeFlatten(chunks, i);
    assert i == |chunks| ==> kept == chunks;
    body := Join(kept, total);
    if total > cap {
      assert body[..] == Flatten(chunks[..(i - 1) + 1]);
    }
  }

  /** The adapter's loop: refuses exactly the bodies over the cap, returns every other one unchanged, and never
      keeps more than the cap. */
  method CaptureBody(chunks: seq<Chunk>, cap: nat) returns (oversized: bool, body: array<byte>, kept: seq<Chunk>)
    ensures oversized <==> |Flatten(chunks)| > cap
    ensures !oversized ==> body[..] == Flatten(chunks)
    ensures |Flatten(kept)| <= cap
  {
    kept := [];
    oversized := false;
    body := new byte[0];
    var total := 0;
    var i := 0;
    while i < |chunks|
      invariant 0 <= i <= |chunks| && kept == chunks[..i] && total == |Flatten(kept)| <= cap
    {
      total := total + |chunks[i]|;
      FlattenAppend(kept, chunks[i]);
      assert chunks[..i] + [chunks[i]] == chunks[..i + 1];
      TakeFlatten(chunks, i + 1);
      if total > cap {
        return true, body, kept;
      }
      kept := kept + [chunks[i]];
      i := i + 1;
    }
    assert kept == chunks;
    body := Join(kept, total);
  }

  /** However a body is cut into chunks, the two readers give one verdict and, within the cap, one body. */
  method ReadersAgree(chunks: seq<Chunk>, other: seq<Chunk>, cap: nat)
    returns (a: array<byte>, oversized: bool, b: array<byte>)
    requires Flatten(chunks) == Flatten(other)
    ensures oversized <==> a.Length > cap
    ensures oversized <==> |Flatten(chunks)| > cap
    ensures !oversized ==> a[..] == b[..] == Flatten(chunks)
  {
    a := ReadBoundedBody(chunks, cap);
    var kept;
    oversized, b, kept := CaptureBody(other, cap);
  }
}
