/** The copy loop of downloadFile: a response body read in chunks of any size through the limited reader, each chunk
    written to the file and to the running hash, and the checks that follow. */
module Downloads {
  import opened Crypto
  import opened Updates

  function Sum(chunks: seq<nat>): nat {
    if chunks == [] then 0 else Sum(chunks[..|chunks| - 1]) + chunks[|chunks| - 1]
  }

  lemma {:induction false} SumGrows(chunks: seq<nat>, i: nat)
    requires i <= |chunks|
    ensures Sum(chunks[..i]) <= Sum(chunks)
    decreases |chunks| - i
  {
    if i < |chunks| {
      assert chunks[..i + 1][..i] == chunks[..i];
      SumGrows(chunks, i + 1);
    } else {
      assert chunks[..i] == chunks;
    }
  }

  function Least(a: nat, b: nat): nat {
    if a < b then a else b
  }

  lemma SumsAround(chunks: seq<nat>, i: nat)
    requires i < |chunks|
    ensures Sum(chunks[..i + 1]) == Sum(chunks[..i]) + chunks[i] <= Sum(chunks)
    ensures Sum(chunks[..i]) <= Sum(chunks[..|chunks| - 1])
  {
    var front := chunks[..|chunks| - 1];
    assert chunks[..i + 1][..i] == chunks[..i] == front[..i];
    SumGrows(chunks, i + 1);
    SumGrows(front, i);
  }

  /** The reads give all that is wanted, at most `limit` bytes of a body, before one of them fails. A body that reaches
      the limit is never read to its end; for any other some read has to meet the end, be it one of its own or, of an
      eager reader, the one with the last bytes. */
  predicate ReadsReach(length: nat, limit: nat, chunks: seq<nat>, eager: bool) {
    if length >= limit then Sum(chunks) >= limit
    else chunks != [] && Sum(if eager then chunks else chunks[..|chunks| - 1]) >= length
  }

  /** One turn of the copy: the chunk goes to the file, which takes `room` bytes in all, and then to the hash. */
  method WriteChunk(body: Bytes, at: nat, n: nat, room: nat) returns (ok: bool, file: Bytes, hashed: Bytes)
    requires at + n <= |body| && at <= room
    ensures ok <==> at + n <= room
    ensures file == body[..Least(at + n, room)] && hashed == if ok then file else body[..at]
  {
    var chunk := body[at..at + n];
    file, hashed := body[..at], body[..at];
    ok := at + n <= room;
    file := file + if ok then chunk else chunk[..room - at];
    if ok {
      hashed := hashed + chunk;
    }
  }

  /** io.Copy over a reader limited to `limit` bytes. `chunks` are the sizes of the reads that do not fail, and a read
      after the last of them does, be it the one that would have met the end of the body; `room` is how many bytes the
      file takes. */
  method CopyUpTo(body: Bytes, limit: nat, chunks: seq<nat>, eager: bool, room: nat)
    returns (ok: bool, file: Bytes, hashed: Bytes)
    ensures ok <==> ReadsReach(|body|, limit, chunks, eager) && Least(|body|, limit) <= room
    ensures |file| <= Least(|body|, limit) && file == body[..|file|] && hashed <= file
    ensures ok ==> hashed == file && |file| == Least(|body|, limit)
  {
    file, hashed := [], [];
    var remaining := limit;
    for i := 0 to |chunks|
      invariant remaining == limit - |file| && |file| <= room && |file| == Least(Sum(chunks[..i]), Least(|body|, limit))
      invariant file == hashed == body[..|file|]
      invariant i > 0 && |body| < limit ==> Sum(chunks[..if eager then i else i - 1]) < |body|
    {
      SumsAround(chunks, i);
      if remaining == 0 || |file| == |body| {
        return true, file, hashed;
      }
      var n := Least(chunks[i], Least(remaining, |body| - |file|));
      ok, file, hashed := WriteChunk(body, |file|, n, room);
      if !ok {
        return;
      }
      remaining := remaining - n;
      if eager && |file| == |body| {
        return;
      }
    }
    assert chunks[..|chunks|] == chunks;
    ok := remaining == 0;
  }

  /** The copy of downloadFile: the reads suffice for all the limited reader lets through. */
  predicate ReadsSuffice(body: Bytes, chunks: seq<nat>, eager: bool) {
    ReadsReach(|body|, MAX_DOWNLOAD + 1, chunks, eager)
  }

  method CopyLimited(body: Bytes, chunks: seq<nat>, eager: bool, room: nat)
    returns (ok: bool, file: Bytes, hashed: Bytes)
    ensures ok <==> ReadsSuffice(body, chunks, eager) && |Limited(body)| <= room
    ensures ok ==> file == hashed == Limited(body)
    ensures file <= Limited(body) && hashed <= file
  {
    ok, file, hashed := CopyUpTo(body, MAX_DOWNLOAD + 1, chunks, eager, room);
  }

  /** downloadFile between the request and the rename. */
  method Fetch(hash: Bytes -> string, body: Bytes, chunks: seq<nat>, eager: bool, room: nat, sha: string,
               examined: bool)
    returns (accepted: bool, file: Bytes)
    ensures accepted <==> ReadsSuffice(body, chunks, eager) && |Limited(body)| <= room
                          && Accepts(hash, Request("", "", true, sha, Body(body)), examined)
    ensures accepted ==> file == Limited(body)
  {
    var ok, hashed;
    ok, file, hashed := CopyLimited(body, chunks, eager, room);
    if !ok || (examined && |file| > MAX_DOWNLOAD) {
      return false, file;
    }
    accepted := hash(hashed) == sha;
  }

  /** With the size check available, what is accepted is the whole body, and exactly that of an HTTPS response of at
      most 50 MiB with the requested hash. */
  lemma AcceptedIsWhole(hash: Bytes -> string, r: Request)
    ensures Accepts(hash, r, true) <==>
              r.https && r.response.Body? && |r.response.bytes| <= 52_428_800 && hash(r.response.bytes) == r.sha
    ensures Accepts(hash, r, true) ==> Got(r) == r.response.bytes
  {
  }

  /** Without it, what is accepted is the whole body if and only if the body is at most one byte longer than that. */
  lemma UnexaminedIsWholeIff(hash: Bytes -> string, r: Request)
    requires Accepts(hash, r, false)
    ensures Got(r) == r.response.bytes <==> |r.response.bytes| <= 52_428_801
  {
  }
}
