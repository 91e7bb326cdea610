/** infra/atrest/cipher.go: EncryptStream and DecryptStream, reading and writing through reused
    buffers, against the stream format of StreamCipher. */
module Cipher {
  import opened Bytes
  import opened Results
  import opened StreamCipher

  /** An io.Reader over a known byte string, with io.ReadFull. */
  class Reader {
    const data: Text
    var pos: nat

    ghost predicate Valid() reads this { pos <= |data| }

    constructor (data: Text)
      ensures Valid() && this.data == data && pos == 0
    {
      this.data, this.pos := data, 0;
    }

    /** Fills `buf` as far as the input goes; `short` is io.EOF or io.ErrUnexpectedEOF. */
    method ReadFull(buf: array<Byte>) returns (n: nat, short: bool)
      requires Valid()
      modifies this`pos, buf
      ensures Valid() && pos == old(pos) + n
      ensures n == if |data| - old(pos) < buf.Length then |data| - old(pos) else buf.Length
      ensures buf[..n] == data[old(pos)..pos]
      ensures short <==> n < buf.Length
    {
      n := if |data| - pos < buf.Length then |data| - pos else buf.Length;
      forall k | 0 <= k < n { buf[k] := data[pos + k]; }
      pos := pos + n;
      short := n < buf.Length;
    }
  }

  class Writer {
    var written: Text

    constructor ()
      ensures written == []
    {
      written := [];
    }

    method Write(b: Text)
      modifies this
      ensures written == old(written) + b
    {
      written := written + b;
    }
  }

  /** What has been added to `ledger0` when the first `i` chunks of `p` have been sealed. */
  ghost predicate PartSealed(seal: SealFn, ledger0: Ledger, ledger: Ledger, sub: SubKey, p: Text, i: nat) {
    && i <= ChunkCount(p)
    && (forall k | k in ledger :: k in ledger0 || exists j: nat :: j < i && IsSealedChunk(seal, map[sub := p], k, j))
    && (forall k | k in ledger0 :: k in ledger && ledger[k] == ledger0[k])
    && (forall j: nat | j < i :: var k := SealedChunk(seal, sub, p, j); k in ledger && ledger[k] == Chunk(p, j))
  }

  lemma NoneSealed(seal: SealFn, ledger: Ledger, sub: SubKey, p: Text)
    ensures PartSealed(seal, ledger, ledger, sub, p, 0)
  {
  }

  lemma BodyCons(seal: SealFn, sub: SubKey, p: Text, i: nat)
    requires i < ChunkCount(p)
    ensures Body(seal, sub, p, i)
         == SealedChunk(seal, sub, p, i).ct + if IsLast(p, i) then [] else Body(seal, sub, p, i + 1)
  {
  }

  lemma SealNext(seal: SealFn, ledger0: Ledger, ledger: Ledger, files: Files, sub: SubKey, p: Text, i: nat)
    requires Honest(seal, ledger0, files) && sub !in files && i < ChunkCount(p) <= Pow256(8)
    requires PartSealed(seal, ledger0, ledger, sub, p, i)
    ensures PartSealed(seal, ledger0, ledger[SealedChunk(seal, sub, p, i) := Chunk(p, i)], sub, p, i + 1)
  {
    var key := SealedChunk(seal, sub, p, i);
    var ledger' := ledger[key := Chunk(p, i)];
    SealedUnderKnownKey(seal, ledger0, files, key);
    forall k | k in ledger'
      ensures k in ledger0 || exists j: nat :: j < i + 1 && IsSealedChunk(seal, map[sub := p], k, j)
    {
      if k == key {
        assert IsSealedChunk(seal, map[sub := p], k, i);
      } else if k !in ledger0 {
        var j: nat :| j < i && IsSealedChunk(seal, map[sub := p], k, j);
        assert j < i + 1;
      }
    }
    forall j: nat | j < i + 1
      ensures var k := SealedChunk(seal, sub, p, j); k in ledger' && ledger'[k] == Chunk(p, j)
    {
      NoncesDistinct(i, j);
    }
  }

  lemma AllSealed(seal: SealFn, ledger0: Ledger, ledger: Ledger, files: Files, sub: SubKey, p: Text)
    requires Honest(seal, ledger0, files) && sub !in files
    requires ChunkCount(p) <= Pow256(8) && |sub.fileId| == FILE_ID_LEN
    requires PartSealed(seal, ledger0, ledger, sub, p, ChunkCount(p))
    ensures Honest(seal, ledger, files[sub := p])
  {
    var files' := files[sub := p];
    forall k | k in ledger ensures exists i: nat :: IsSealedChunk(seal, files', k, i) {
      if k in ledger0 {
        var i: nat :| IsSealedChunk(seal, files, k, i);
        assert IsSealedChunk(seal, files', k, i);
      } else {
        var i: nat :| i < ChunkCount(p) && IsSealedChunk(seal, map[sub := p], k, i);
        assert IsSealedChunk(seal, files', k, i);
      }
    }
  }

  class Cipher {
    const key: Text
    const seal: SealFn
    /** The ideal AEAD's memory, and the plaintexts it was filled from. */
    var ledger: Ledger
    ghost var files: Files

    ghost predicate Valid() reads this {
      AddsTag(seal) && Honest(seal, ledger, files)
    }

    constructor (key: Text, seal: SealFn)
      requires AddsTag(seal)
      ensures Valid() && this.key == key && this.seal == seal && files == map[]
    {
      this.key, this.seal, this.ledger, this.files := key, seal, map[], map[];
    }

    method Seal(fileId: Text, nonce: Text, text: Text, aad: Text) returns (ct: Text)
      modifies this`ledger
      ensures ct == seal(SubKey(key, fileId), nonce, aad, text)
      ensures ledger == old(ledger)[Sealed(SubKey(key, fileId), nonce, aad, ct) := text]
    {
      ct := seal(SubKey(key, fileId), nonce, aad, text);
      ledger := ledger[Sealed(SubKey(key, fileId), nonce, aad, ct) := text];
    }

    /** One turn of the encrypting loop. */
    method EncryptChunk(dst: Writer, src: Reader, buf: array<Byte>, fileId: Text, counter: nat, ghost p: Text)
      returns (last: bool)
      requires src.Valid() && buf.Length == CHUNK_SIZE && counter < ChunkCount(p)
      requires src.data[src.pos..] == p[counter * CHUNK_SIZE..]
      modifies this`ledger, dst, src`pos, buf
      ensures src.Valid() && last == IsLast(p, counter)
      ensures !last ==> src.data[src.pos..] == p[(counter + 1) * CHUNK_SIZE..]
      ensures var k := SealedChunk(seal, SubKey(key, fileId), p, counter);
              ledger == old(ledger)[k := Chunk(p, counter)] && dst.written == old(dst.written) + k.ct
    {
      ghost var left := src.data[src.pos..];
      var n: nat;
      n, last := src.ReadFull(buf);
      assert buf[..n] == left[..n] == Chunk(p, counter);
      assert src.data[src.pos..] == left[n..];
      var out := Seal(fileId, ChunkNonce(counter), buf[..n], ChunkAad(counter, last));
      dst.Write(out);
    }

    /** The encrypting loop, on the whole input that is left. */
    method EncryptChunks(dst: Writer, src: Reader, fileId: Text)
      requires Honest(seal, ledger, files) && src.Valid() && SubKey(key, fileId) !in files
      requires ChunkCount(src.data[src.pos..]) <= Pow256(8)
      modifies this`ledger, dst, src`pos
      ensures var p, sub := old(src.data[src.pos..]), SubKey(key, fileId);
              PartSealed(seal, old(ledger), ledger, sub, p, ChunkCount(p))
              && dst.written == old(dst.written) + Body(seal, sub, p, 0)
    {
      hide Honest, PartSealed, Body, Chunk, SealedChunk;
      ghost var p, sub, ledger0 := src.data[src.pos..], SubKey(key, fileId), ledger;
      NoneSealed(seal, ledger, sub, p);
      ghost var goal := dst.written + Body(seal, sub, p, 0);
      var buf := new Byte[CHUNK_SIZE](_ => 0);
      var counter, last := 0, false;
      while !last
        invariant src.Valid() && fresh(buf)
        invariant counter <= ChunkCount(p) && PartSealed(seal, ledger0, ledger, sub, p, counter)
        invariant last <==> counter == ChunkCount(p)
        invariant !last ==> src.data[src.pos..] == p[counter * CHUNK_SIZE..]
        invariant goal == dst.written + if last then [] else Body(seal, sub, p, counter)
        decreases ChunkCount(p) - counter
      {
        SealNext(seal, ledger0, ledger, files, sub, p, counter);
        BodyCons(seal, sub, p, counter);
        last := EncryptChunk(dst, src, buf, fileId, counter, p);
        counter := counter + 1;
      }
    }

    /** `fileId` is the random 16 bytes; that no earlier file drew the same is the assumption on
        randomness.  The chunk counter is 64 bits wide. */
    method EncryptStream(dst: Writer, src: Reader, fileId: Text)
      requires Valid() && src.Valid()
      requires |fileId| == FILE_ID_LEN && SubKey(key, fileId) !in files
      requires ChunkCount(src.data[src.pos..]) <= Pow256(8)
      modifies this`ledger, this`files, dst, src`pos
      ensures Valid()
      ensures files == old(files)[SubKey(key, fileId) := old(src.data[src.pos..])]
      ensures dst.written == old(dst.written) + Encrypted(seal, SubKey(key, fileId), old(src.data[src.pos..]))
    {
      hide Honest, PartSealed, Body;
      ghost var p, sub := src.data[src.pos..], SubKey(key, fileId);
      dst.Write(MAGIC + [VERSION] + fileId);
      EncryptChunks(dst, src, fileId);
      AllSealed(seal, old(ledger), ledger, files, sub, p);
      files := files[sub := p];
    }

    /** One turn of the decrypting loop; None means that another chunk follows. */
    method DecryptChunk(dst: Writer, src: Reader, buf: array<Byte>, sub: SubKey, counter: nat)
      returns (end: Option<Status>)
      requires src.Valid() && buf.Length == CHUNK_SIZE + TAG_SIZE
      modifies dst, src`pos, buf
      ensures src.Valid()
      ensures var was := OpenFrom(ledger, sub, old(src.data[src.pos..]), counter);
              if end.Some? then
                was.status == end.value && dst.written == old(dst.written) + was.written
              else
                var next := OpenFrom(ledger, sub, src.data[src.pos..], counter + 1);
                src.pos > old(src.pos)
                && was.status == next.status
                && dst.written + next.written == old(dst.written) + was.written
    {
      ghost var left := src.data[src.pos..];
      var n, last := src.ReadFull(buf);
      assert buf[..n] == left[..n];
      assert src.data[src.pos..] == left[n..];
      if n < TAG_SIZE { return Some(Truncated); }
      var k := Sealed(sub, ChunkNonce(counter), ChunkAad(counter, last), buf[..n]);
      if k !in ledger { return Some(OpenFailed(counter)); }
      dst.Write(ledger[k]);
      end := if last then Some(Ok) else None;
    }

    /** DecryptStream writes what the format says and reports the same outcome, on any input. */
    method DecryptStream(dst: Writer, src: Reader) returns (status: Status)
      requires Valid() && src.Valid()
      modifies dst, src`pos
      ensures status == Decrypt(ledger, key, old(src.data[src.pos..])).status
      ensures dst.written == old(dst.written) + Decrypt(ledger, key, old(src.data[src.pos..])).written
    {
      ghost var s := src.data[src.pos..];
      var header := new Byte[HEADER_LEN](_ => 0);
      var got, short := src.ReadFull(header);
      if short { return ShortHeader; }
      assert header[..got] == s[..HEADER_LEN];
      assert header[..4] == s[..4] && header[4] == s[4] && header[5..] == s[5..HEADER_LEN];
      assert src.data[src.pos..] == s[HEADER_LEN..];
      if header[..4] != MAGIC { return BadMagic; }
      if header[4] != VERSION { return BadVersion; }
      var sub := SubKey(key, header[5..]);
      ghost var all := OpenFrom(ledger, sub, src.data[src.pos..], 0);
      ghost var goal := dst.written + all.written;
      var buf := new Byte[CHUNK_SIZE + TAG_SIZE](_ => 0);
      var counter, end := 0, None;
      while end.None?
        invariant src.Valid() && fresh(buf)
        invariant end.None? ==>
          var d := OpenFrom(ledger, sub, src.data[src.pos..], counter);
          d.status == all.status && dst.written + d.written == goal
        invariant end.Some? ==> end.value == all.status && dst.written == goal
        decreases if end.None? then 1 else 0, |src.data| - src.pos
      {
        end := DecryptChunk(dst, src, buf, sub, counter);
        counter := counter + 1;
      }
      status := end.value;
    }
  }
}
