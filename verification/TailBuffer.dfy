/** `createCapturedOutputBuffer`: keeps the last bytes of a process's output. */
module TailBuffer {
  import opened Optional

  type Bytes = seq<bv8>

  /** `finish`: the truncation notice's numbers, if any, and the bytes of the text. */
  datatype Captured = Captured(notice: Option<(int, nat)>, body: Bytes, truncated: bool, totalBytes: nat)

  /** `Math.trunc` */
  function Trunc(x: real): int {
    if x >= 0.0 then x.Floor else -((-x).Floor)
  }

  function NormalizeByteLimit(maxBytes: real): (limit: int)
    ensures limit >= 1
    ensures maxBytes >= 1.0 ==> limit as real <= maxBytes < limit as real + 1.0
    ensures maxBytes < 2.0 ==> limit == 1
  {
    var n := Trunc(maxBytes);
    if n > 1 then n else 1
  }

  /** The last `n` bytes of `s`, or all of it. */
  function Tail(s: Bytes, n: int): Bytes
    requires n >= 0
  {
    if |s| <= n then s else s[|s| - n..]
  }

  function Flat(chunks: seq<Bytes>): Bytes {
    if |chunks| == 0 then [] else chunks[0] + Flat(chunks[1..])
  }

  lemma {:induction false} FlatPush(chunks: seq<Bytes>, chunk: Bytes)
    ensures Flat(chunks + [chunk]) == Flat(chunks) + chunk
  {
    if |chunks| == 0 {
      assert [chunk][1..] == [];
    } else {
      FlatPush(chunks[1..], chunk);
      assert (chunks + [chunk])[1..] == chunks[1..] + [chunk];
    }
  }

  /** Trimming early loses nothing that trimming at the end would keep. */
  lemma TailOfTail(before: Bytes, more: Bytes, n: int)
    requires n >= 0
    ensures Tail(Tail(before, n) + more, n) == Tail(before + more, n)
  {
    var kept, whole := Tail(before, n) + more, before + more;
    if |before| > n {
      assert kept == whole[|before| - n..];
    }
  }

  lemma DropHead(chunks: seq<Bytes>, n: int)
    requires n >= 0 && |chunks| > 0 && |chunks[0]| <= |Flat(chunks)| - n
    ensures |Flat(chunks[1..])| == |Flat(chunks)| - |chunks[0]|
    ensures Tail(Flat(chunks[1..]), n) == Tail(Flat(chunks), n)
  {
  }

  lemma CutHead(chunks: seq<Bytes>, n: int)
    requires n >= 0 && |chunks| > 0 && 0 < |Flat(chunks)| - n < |chunks[0]|
    ensures Flat(chunks[0 := chunks[0][|Flat(chunks)| - n..]]) == Tail(Flat(chunks), n)
    ensures |Tail(Flat(chunks), n)| == n && Tail(Tail(Flat(chunks), n), n) == Tail(Flat(chunks), n)
  {
    var cut := chunks[0 := chunks[0][|Flat(chunks)| - n..]];
    assert cut[1..] == chunks[1..];
  }

  /** What is left once nothing overflows, or no chunk is left, is the tail. */
  lemma Trimmed(chunks: seq<Bytes>, held: Bytes, n: int)
    requires n >= 0 && Tail(Flat(chunks), n) == Tail(held, n) && (|Flat(chunks)| <= n || |chunks| == 0)
    ensures Flat(chunks) == Tail(held, n)
  {
  }

  lemma Sizes(before: Bytes, whole: Bytes, n: int)
    requires n >= 0 && before <= whole
    ensures |Tail(before, n)| == if |before| <= n then |before| else n
    ensures |Tail(whole, n)| == if |whole| <= n then |whole| else n
    ensures |before| <= n ==> Tail(before, n) + whole[|before|..] == whole
  {
  }

  class CapturedOutputBuffer {
    const limit: int
    var chunks: seq<Bytes>
    var bufferedBytes: int
    var totalBytes: nat
    var truncated: bool
    /** Everything appended so far. */
    ghost var appended: Bytes

    ghost predicate Valid()
      reads this
    {
      && limit >= 1
      && Flat(chunks) == Tail(appended, limit)
      && bufferedBytes == |Flat(chunks)|
      && totalBytes == |appended|
      && (truncated <==> |appended| > limit)
      && forall i :: 0 <= i < |chunks| ==> |chunks[i]| > 0
    }

    constructor (maxBytes: real)
      ensures Valid() && appended == [] && limit == NormalizeByteLimit(maxBytes)
    {
      limit := NormalizeByteLimit(maxBytes);
      chunks, bufferedBytes, totalBytes, truncated, appended := [], 0, 0, false, [];
    }

    method Append(chunk: Option<Bytes>)
      requires Valid()
      modifies this
      ensures Valid() && appended == old(appended) + if chunk.Some? then chunk.value else []
    {
      if chunk.None? { return; }
      var buffer := chunk.value;
      if |buffer| == 0 { return; }
      FlatPush(chunks, buffer);
      chunks := chunks + [buffer];
      bufferedBytes := bufferedBytes + |buffer|;
      totalBytes := totalBytes + |buffer|;
      appended := appended + buffer;
      Trim(old(appended));
    }

    /** The loop of `append`. */
    method Trim(ghost before: Bytes)
      requires before <= appended && limit >= 1 && Flat(chunks) == Tail(before, limit) + appended[|before|..]
      requires bufferedBytes == |Flat(chunks)| && totalBytes == |appended| && (truncated <==> |before| > limit)
      requires forall i :: 0 <= i < |chunks| ==> |chunks[i]| > 0
      modifies `chunks, `bufferedBytes, `truncated
      ensures Valid()
    {
      hide Flat, Tail;
      ghost var held := Flat(chunks);
      TailOfTail(before, appended[|before|..], limit);
      Sizes(before, appended, limit);
      assert before + appended[|before|..] == appended;
      while bufferedBytes > limit && |chunks| > 0
        invariant Tail(Flat(chunks), limit) == Tail(held, limit) && bufferedBytes == |Flat(chunks)|
        invariant truncated <==> (|before| > limit || bufferedBytes < |held|)
        invariant bufferedBytes < |held| ==> bufferedBytes >= limit
        invariant bufferedBytes <= |held|
        invariant forall i :: 0 <= i < |chunks| ==> |chunks[i]| > 0
        decreases bufferedBytes
      {
        var overflow := bufferedBytes - limit;
        var head := chunks[0];
        if |head| <= overflow {
          DropHead(chunks, limit);
          chunks := chunks[1..];
          bufferedBytes := bufferedBytes - |head|;
          truncated := true;
        } else {
          CutHead(chunks, limit);
          chunks := chunks[0 := head[overflow..]];
          bufferedBytes := bufferedBytes - overflow;
          truncated := true;
        }
      }
      Trimmed(chunks, held, limit);
    }

    method Finish() returns (r: Captured)
      requires Valid()
      ensures r.body == Tail(appended, limit) && r.totalBytes == |appended|
      ensures |r.body| == (if |appended| <= limit then |appended| else limit)
      ensures forall i :: 0 <= i < |r.body| ==> r.body[i] == appended[|appended| - |r.body| + i]
      ensures r.truncated <==> |appended| > limit
      ensures r.notice == if r.truncated then Some((limit, |appended|)) else None
    {
      var body := Flat(chunks);
      r := Captured(if truncated then Some((limit, totalBytes)) else None, body, truncated, totalBytes);
    }
  }
}
