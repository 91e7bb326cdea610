/** infra/atrest/cipher.go: chunked authenticated encryption of a byte stream.

    AES-GCM and HKDF are ideal: a per-file key is the pair (master key, file id), and Open answers
    exactly what was sealed, from a ledger of everything sealed so far. */
module StreamCipher {
  import opened Bytes

  const HEADER_LEN := 21
  const FILE_ID_LEN := 16
  const CHUNK_SIZE := 65536
  const TAG_SIZE := 16
  const MAGIC: seq<Byte> := [0x41, 0x54, 0x52, 0x31]
  const VERSION: Byte := 1

  datatype SubKey = SubKey(master: Text, fileId: Text)

  /** The inputs of one Open call. */
  datatype Sealed = Sealed(sub: SubKey, nonce: Text, aad: Text, ct: Text)

  type Ledger = map<Sealed, Text>

  /** What AES-GCM would produce: any function that adds a tag's length. */
  type SealFn = (SubKey, Text, Text, Text) -> Text

  ghost predicate AddsTag(seal: SealFn) {
    forall k, n, a, t :: |seal(k, n, a, t)| == |t| + TAG_SIZE
  }

  function ChunkNonce(counter: nat): Text {
    [0, 0, 0, 0] + BigEndian(counter, 8)
  }

  function ChunkAad(counter: nat, last: bool): Text {
    BigEndian(counter, 8) + [if last then 1 else 0]
  }

  /** A plaintext is cut into whole chunks and a final one that is shorter, possibly empty. */
  function ChunkCount(p: Text): nat {
    |p| / CHUNK_SIZE + 1
  }

  function Chunk(p: Text, i: nat): Text
    requires i < ChunkCount(p)
  {
    if i == ChunkCount(p) - 1 then p[i * CHUNK_SIZE..] else p[i * CHUNK_SIZE..(i + 1) * CHUNK_SIZE]
  }

  function IsLast(p: Text, i: nat): bool {
    i == ChunkCount(p) - 1
  }

  function SealedChunk(seal: SealFn, sub: SubKey, p: Text, i: nat): Sealed
    requires i < ChunkCount(p)
  {
    var nonce, aad := ChunkNonce(i), ChunkAad(i, IsLast(p, i));
    Sealed(sub, nonce, aad, seal(sub, nonce, aad, Chunk(p, i)))
  }

  /** The ciphertext from chunk `i` on. */
  function Body(seal: SealFn, sub: SubKey, p: Text, i: nat): Text
    requires i < ChunkCount(p)
    decreases ChunkCount(p) - i
  {
    SealedChunk(seal, sub, p, i).ct + if IsLast(p, i) then [] else Body(seal, sub, p, i + 1)
  }

  function Header(fileId: Text): Text {
    MAGIC + [VERSION] + fileId
  }

  /** The whole encrypted stream. */
  function Encrypted(seal: SealFn, sub: SubKey, p: Text): Text {
    Header(sub.fileId) + Body(seal, sub, p, 0)
  }

  datatype Status = Ok | ShortHeader | BadMagic | BadVersion | Truncated | OpenFailed(counter: nat)

  datatype Decrypted = Decrypted(written: Text, status: Status)

  /** What DecryptStream does from counter `i` on, `s` being the input that is left. */
  function OpenFrom(ledger: Ledger, sub: SubKey, s: Text, i: nat): Decrypted
    decreases |s|
  {
    var n := if |s| < CHUNK_SIZE + TAG_SIZE then |s| else CHUNK_SIZE + TAG_SIZE;
    var last := n < CHUNK_SIZE + TAG_SIZE;
    if n < TAG_SIZE then Decrypted([], Truncated)
    else
      var key := Sealed(sub, ChunkNonce(i), ChunkAad(i, last), s[..n]);
      if key !in ledger then Decrypted([], OpenFailed(i))
      else if last then Decrypted(ledger[key], Ok)
      else
        var rest := OpenFrom(ledger, sub, s[n..], i + 1);
        Decrypted(ledger[key] + rest.written, rest.status)
  }

  function Decrypt(ledger: Ledger, master: Text, s: Text): Decrypted {
    if |s| < HEADER_LEN then Decrypted([], ShortHeader)
    else if s[..4] != MAGIC then Decrypted([], BadMagic)
    else if s[4] != VERSION then Decrypted([], BadVersion)
    else OpenFrom(ledger, SubKey(master, s[5..HEADER_LEN]), s[HEADER_LEN..], 0)
  }

  // ---- The ledger an installation builds up ----

  type Files = map<SubKey, Text>

  ghost predicate IsSealedChunk(seal: SealFn, files: Files, k: Sealed, i: nat) {
    k.sub in files && i < ChunkCount(files[k.sub]) && k == SealedChunk(seal, k.sub, files[k.sub], i)
  }

  /** The ledger holds the chunks of the encrypted files, each opening to its own plaintext, and
      nothing else.  No file is longer than the 64-bit counter can number. */
  ghost predicate Honest(seal: SealFn, ledger: Ledger, files: Files) {
    && (forall k | k in ledger :: exists i: nat :: IsSealedChunk(seal, files, k, i))
    && (forall sub, i: nat | sub in files && i < ChunkCount(files[sub]) ::
          var k := SealedChunk(seal, sub, files[sub], i); k in ledger && ledger[k] == Chunk(files[sub], i))
    && (forall sub | sub in files :: ChunkCount(files[sub]) <= Pow256(8) && |sub.fileId| == FILE_ID_LEN)
  }

  lemma NoncesDistinct(i: nat, j: nat)
    requires i < Pow256(8) && j < Pow256(8)
    ensures ChunkNonce(i) == ChunkNonce(j) ==> i == j
  {
    assert ChunkNonce(i)[4..] == BigEndian(i, 8);
    assert ChunkNonce(j)[4..] == BigEndian(j, 8);
    BigEndianInjective(i, j, 8);
  }

  /** Nonces within one stream are pairwise distinct exactly when the stream has at most 2^64 chunks. */
  lemma NonceReuse(p: Text)
    ensures (forall i: nat, j: nat | i < j < ChunkCount(p) :: ChunkNonce(i) != ChunkNonce(j))
            <==> ChunkCount(p) <= Pow256(8)
  {
    if ChunkCount(p) <= Pow256(8) {
      forall i: nat, j: nat | i < j < ChunkCount(p) ensures ChunkNonce(i) != ChunkNonce(j) {
        NoncesDistinct(i, j);
      }
    } else {
      BigEndianWraps(8);
      assert ChunkNonce(0) == ChunkNonce(Pow256(8));
    }
  }

  lemma AadTellsLast(i: nat, last: bool, last': bool)
    ensures ChunkAad(i, last) == ChunkAad(i, last') ==> last == last'
  {
    assert ChunkAad(i, last)[8] == if last then 1 else 0;
    assert ChunkAad(i, last')[8] == if last' then 1 else 0;
  }

  /** The twelve bytes of a nonce and the nine of the additional data carry the position, below 2^64 whole. */
  lemma ChunkLayout(i: nat, last: bool)
    requires i < Pow256(8)
    ensures |ChunkNonce(i)| == 12 && ChunkNonce(i)[..4] == [0, 0, 0, 0] && Value(ChunkNonce(i)[4..]) == i
    ensures |ChunkAad(i, last)| == 9 && Value(ChunkAad(i, last)[..8]) == i && (ChunkAad(i, last)[8] == 1 <==> last)
    ensures ChunkAad(i, last)[8] <= 1
  {
    ValueOfBigEndian(i, 8);
    assert ChunkNonce(i)[4..] == BigEndian(i, 8) && ChunkAad(i, last)[..8] == BigEndian(i, 8);
  }

  /** The additional data of a chunk is that of no other position, nor of the other finality. */
  lemma AadIsOwn(i: nat, last: bool, j: nat, last': bool)
    requires i < Pow256(8) && j < Pow256(8)
    ensures ChunkAad(i, last) == ChunkAad(j, last') <==> i == j && last == last'
  {
    assert ChunkAad(i, last)[..8] == BigEndian(i, 8) && ChunkAad(j, last')[..8] == BigEndian(j, 8);
    if ChunkAad(i, last) == ChunkAad(j, last') {
      BigEndianInjective(i, j, 8);
      AadTellsLast(i, last, last');
    }
  }

  lemma ChunkLength(p: Text, i: nat)
    requires i < ChunkCount(p)
    ensures |Chunk(p, i)| <= CHUNK_SIZE
    ensures |Chunk(p, i)| < CHUNK_SIZE <==> IsLast(p, i)
  {
  }

  /** The format's size: the header, the plaintext, and one tag per chunk. */
  lemma {:induction false} BodyLength(seal: SealFn, sub: SubKey, p: Text, i: nat)
    requires AddsTag(seal) && i < ChunkCount(p)
    ensures |Body(seal, sub, p, i)| == |p| - i * CHUNK_SIZE + TAG_SIZE * (ChunkCount(p) - i)
    decreases ChunkCount(p) - i
  {
    if !IsLast(p, i) { BodyLength(seal, sub, p, i + 1); }
  }

  lemma CiphertextLength(seal: SealFn, sub: SubKey, p: Text)
    requires AddsTag(seal) && |sub.fileId| == FILE_ID_LEN
    ensures |Encrypted(seal, sub, p)| == HEADER_LEN + |p| + 16 * (|p| / 65536 + 1)
  {
    BodyLength(seal, sub, p, 0);
  }

  // ---- Round trip ----

  lemma {:induction false} OpenBody(seal: SealFn, ledger: Ledger, files: Files, sub: SubKey, i: nat)
    requires AddsTag(seal) && Honest(seal, ledger, files)
    requires sub in files && i < ChunkCount(files[sub])
    ensures OpenFrom(ledger, sub, Body(seal, sub, files[sub], i), i)
         == Decrypted(files[sub][i * CHUNK_SIZE..], Ok)
    decreases ChunkCount(files[sub]) - i
  {
    var p := files[sub];
    var k := SealedChunk(seal, sub, p, i);
    ChunkLength(p, i);
    ChunkOpens(seal, ledger, files, sub, i);
    ChunkJoins(p, i);
    hide Honest, AddsTag, OpenFrom, ChunkNonce, ChunkAad, SealedChunk, Chunk, ChunkCount;
    if IsLast(p, i) {
      OpenOne(ledger, sub, k.ct, [], i);
      assert k.ct + [] == k.ct;
    } else {
      OpenOne(ledger, sub, k.ct, Body(seal, sub, p, i + 1), i);
      OpenBody(seal, ledger, files, sub, i + 1);
    }
  }

  lemma ChunkOpens(seal: SealFn, ledger: Ledger, files: Files, sub: SubKey, i: nat)
    requires AddsTag(seal) && Honest(seal, ledger, files)
    requires sub in files && i < ChunkCount(files[sub])
    ensures var p := files[sub];
            var k := SealedChunk(seal, sub, p, i);
            && k in ledger && ledger[k] == Chunk(p, i) && |k.ct| == |Chunk(p, i)| + TAG_SIZE
            && k == Sealed(sub, ChunkNonce(i), ChunkAad(i, IsLast(p, i)), k.ct)
  {
    hide ChunkNonce, ChunkAad, Chunk;
  }

  lemma ChunkJoins(p: Text, i: nat)
    requires i < ChunkCount(p)
    ensures IsLast(p, i) ==> Chunk(p, i) == p[i * CHUNK_SIZE..]
    ensures !IsLast(p, i) ==>
      i + 1 < ChunkCount(p) && Chunk(p, i) + p[(i + 1) * CHUNK_SIZE..] == p[i * CHUNK_SIZE..]
  {
  }

  /** A chunk in the ledger, at the head of what is left: a short one is the last. */
  lemma OpenOne(ledger: Ledger, sub: SubKey, ct: Text, rest: Text, i: nat)
    requires TAG_SIZE <= |ct| <= CHUNK_SIZE + TAG_SIZE && (|ct| < CHUNK_SIZE + TAG_SIZE ==> rest == [])
    requires Sealed(sub, ChunkNonce(i), ChunkAad(i, |ct| < CHUNK_SIZE + TAG_SIZE), ct) in ledger
    ensures var plain := ledger[Sealed(sub, ChunkNonce(i), ChunkAad(i, |ct| < CHUNK_SIZE + TAG_SIZE), ct)];
            OpenFrom(ledger, sub, ct + rest, i) ==
            if |ct| < CHUNK_SIZE + TAG_SIZE then Decrypted(plain, Ok)
            else var more := OpenFrom(ledger, sub, rest, i + 1); Decrypted(plain + more.written, more.status)
  {
    hide ChunkNonce, ChunkAad;
    var s := ct + rest;
    assert s[..|ct|] == ct && s[|ct|..] == rest;
  }

  lemma HeaderParts(sub: SubKey, body: Text)
    requires |sub.fileId| == FILE_ID_LEN
    ensures var s := Header(sub.fileId) + body;
            |s| >= HEADER_LEN && s[..4] == MAGIC && s[4] == VERSION
            && s[5..HEADER_LEN] == sub.fileId && s[HEADER_LEN..] == body
  {
  }

  /** Decrypting what was encrypted gives back the plaintext, whatever its length. */
  lemma RoundTrip(seal: SealFn, ledger: Ledger, files: Files, sub: SubKey)
    requires AddsTag(seal) && Honest(seal, ledger, files) && sub in files
    ensures Decrypt(ledger, sub.master, Encrypted(seal, sub, files[sub])) == Decrypted(files[sub], Ok)
  {
    HeaderParts(sub, Body(seal, sub, files[sub], 0));
    OpenBody(seal, ledger, files, sub, 0);
    assert files[sub][0..] == files[sub];
  }

  // ---- Integrity ----

  /** A chunk that opens at counter `i` is the file's own chunk `i`, with its own finality. */
  lemma OpensOnlyOwnChunk(seal: SealFn, ledger: Ledger, files: Files, sub: SubKey, i: nat, last: bool, ct: Text)
    requires Honest(seal, ledger, files) && i < Pow256(8)
    requires Sealed(sub, ChunkNonce(i), ChunkAad(i, last), ct) in ledger
    ensures sub in files && i < ChunkCount(files[sub]) && last == IsLast(files[sub], i)
    ensures Sealed(sub, ChunkNonce(i), ChunkAad(i, last), ct) == SealedChunk(seal, sub, files[sub], i)
    ensures ledger[Sealed(sub, ChunkNonce(i), ChunkAad(i, last), ct)] == Chunk(files[sub], i)
  {
    var k := Sealed(sub, ChunkNonce(i), ChunkAad(i, last), ct);
    var j: nat :| IsSealedChunk(seal, files, k, j);
    NoncesDistinct(i, j);
    AadTellsLast(i, last, IsLast(files[sub], i));
  }

  lemma {:induction false} OpenIntegrity(seal: SealFn, ledger: Ledger, files: Files, sub: SubKey, s: Text, i: nat)
    requires AddsTag(seal) && Honest(seal, ledger, files)
    requires sub in files && i < ChunkCount(files[sub])
    ensures var d := OpenFrom(ledger, sub, s, i);
            && d.written <= files[sub][i * CHUNK_SIZE..]
            && (d.status.Ok? ==> s == Body(seal, sub, files[sub], i))
    decreases |s|
  {
    hide ChunkNonce, ChunkAad;
    var p := files[sub];
    var n := if |s| < CHUNK_SIZE + TAG_SIZE then |s| else CHUNK_SIZE + TAG_SIZE;
    var last := n < CHUNK_SIZE + TAG_SIZE;
    if n >= TAG_SIZE && Sealed(sub, ChunkNonce(i), ChunkAad(i, last), s[..n]) in ledger {
      OpensOnlyOwnChunk(seal, ledger, files, sub, i, last, s[..n]);
      if last {
        assert s[..n] == s;
      } else {
        OpenIntegrity(seal, ledger, files, sub, s[n..], i + 1);
        assert s == s[..n] + s[n..];
        PrefixOfChunks(p, i, OpenFrom(ledger, sub, s[n..], i + 1).written);
      }
    }
  }

  lemma PrefixOfChunks(p: Text, i: nat, rest: Text)
    requires i < ChunkCount(p) - 1 && rest <= p[(i + 1) * CHUNK_SIZE..]
    ensures Chunk(p, i) + rest <= p[i * CHUNK_SIZE..]
  {
    assert Chunk(p, i) + p[(i + 1) * CHUNK_SIZE..] == p[i * CHUNK_SIZE..];
  }

  /** Integrity, for every input byte string: what has been written is a prefix of the one plaintext
      sealed under the key and file id the input names, and success means that the input is exactly
      that file's ciphertext.  Truncated, extended, reordered and spliced streams all fail. */
  lemma Integrity(seal: SealFn, ledger: Ledger, files: Files, master: Text, s: Text)
    requires AddsTag(seal) && Honest(seal, ledger, files)
    ensures var d := Decrypt(ledger, master, s);
            && (d.written != [] ==>
                  |s| >= HEADER_LEN && SubKey(master, s[5..HEADER_LEN]) in files
                  && d.written <= files[SubKey(master, s[5..HEADER_LEN])])
            && (d.status.Ok? <==> IsCiphertext(seal, files, master, s))
  {
    if |s| >= HEADER_LEN && s[..4] == MAGIC && s[4] == VERSION {
      var sub := SubKey(master, s[5..HEADER_LEN]);
      if sub in files {
        assert files[sub][0..] == files[sub];
        OpenIntegrity(seal, ledger, files, sub, s[HEADER_LEN..], 0);
        assert s == s[..4] + [s[4]] + s[5..HEADER_LEN] + s[HEADER_LEN..];
        assert s == Header(sub.fileId) + s[HEADER_LEN..];
      } else {
        UnknownKeyOpensNothing(seal, ledger, files, sub, s[HEADER_LEN..]);
      }
    }
    forall sub | sub in files && sub.master == master && s == Encrypted(seal, sub, files[sub])
      ensures Decrypt(ledger, master, s).status.Ok?
    {
      RoundTrip(seal, ledger, files, sub);
    }
  }

  ghost predicate IsCiphertext(seal: SealFn, files: Files, master: Text, s: Text) {
    exists sub :: sub in files && sub.master == master && s == Encrypted(seal, sub, files[sub])
  }

  /** The ciphertext of a whole chunk. */
  const WHOLE := CHUNK_SIZE + TAG_SIZE

  /** What a ciphertext cut off after `n` bytes comes to: the plaintext of the whole chunks, and an error that
      says whether too little is left for a chunk or a chunk that does not open. */
  function CutShort(p: Text, n: nat): Decrypted {
    if n < HEADER_LEN then Decrypted([], ShortHeader)
    else
      var whole, left := (n - HEADER_LEN) / WHOLE, (n - HEADER_LEN) % WHOLE;
      Decrypted(p[..if whole * CHUNK_SIZE <= |p| then whole * CHUNK_SIZE else |p|],
                if left < TAG_SIZE then Truncated else OpenFailed(whole))
  }

  /** Truncation is always noticed: of every proper part of a ciphertext exactly the whole chunks are
      written, and the stream fails. */
  lemma CutOff(seal: SealFn, ledger: Ledger, files: Files, sub: SubKey, n: nat)
    requires AddsTag(seal) && Honest(seal, ledger, files) && sub in files && n < |Encrypted(seal, sub, files[sub])|
    ensures Decrypt(ledger, sub.master, Encrypted(seal, sub, files[sub])[..n]) == CutShort(files[sub], n)
    ensures n >= HEADER_LEN ==> (n - HEADER_LEN) / WHOLE * CHUNK_SIZE <= |files[sub]|
  {
    var p := files[sub];
    var body := Body(seal, sub, p, 0);
    assert |sub.fileId| == FILE_ID_LEN && 0 < ChunkCount(p);
    hide Honest, AddsTag, Body, OpenFrom, ChunkCount, CutShort;
    CutIs(p, n);
    if n < HEADER_LEN {
    } else {
      var m := n - HEADER_LEN;
      CutBehindHeader(sub.fileId, body, m);
      CutBody(seal, ledger, files, sub, 0, m);
      HeaderParts(sub, body[..m]);
    }
  }

  lemma CutIs(p: Text, n: nat)
    ensures n < HEADER_LEN ==> CutShort(p, n) == Decrypted([], ShortHeader)
    ensures n >= HEADER_LEN && (n - HEADER_LEN) / WHOLE * CHUNK_SIZE <= |p| ==> CutShort(p, n) == CutFrom(p, 0, n - HEADER_LEN)
  {
  }

  lemma CutBehindHeader(fileId: Text, body: Text, m: nat)
    requires |fileId| == FILE_ID_LEN && m <= |body|
    ensures (Header(fileId) + body)[..HEADER_LEN + m] == Header(fileId) + body[..m]
  {
  }

  /** What the chunks of `p` from the `i`-th on come to when they are cut off after `n` bytes. */
  function CutFrom(p: Text, i: nat, n: nat): Decrypted
    requires (i + n / WHOLE) * CHUNK_SIZE <= |p|
  {
    Decrypted(p[i * CHUNK_SIZE..(i + n / WHOLE) * CHUNK_SIZE], if n % WHOLE < TAG_SIZE then Truncated else OpenFailed(i + n / WHOLE))
  }

  lemma {:induction false} CutBody(seal: SealFn, ledger: Ledger, files: Files, sub: SubKey, i: nat, n: nat)
    requires AddsTag(seal) && Honest(seal, ledger, files) && sub in files
    requires i < ChunkCount(files[sub]) && n < |Body(seal, sub, files[sub], i)|
    ensures (i + n / WHOLE) * CHUNK_SIZE <= |files[sub]|
    ensures OpenFrom(ledger, sub, Body(seal, sub, files[sub], i)[..n], i) == CutFrom(files[sub], i, n)
    decreases ChunkCount(files[sub]) - i
  {
    hide Honest, AddsTag, SealedChunk, Body, CutFrom, OpenFrom, ChunkNonce, ChunkAad, Chunk;
    var p := files[sub];
    var k := SealedChunk(seal, sub, p, i);
    ChunkLength(p, i);
    ChunkOpens(seal, ledger, files, sub, i);
    if n < WHOLE {
      CutChunk(seal, ledger, files, sub, Body(seal, sub, p, i)[..n], i);
      CutNone(p, i, n);
    } else {
      BodyCut(seal, sub, p, i, n);
      var rest, m := Body(seal, sub, p, i + 1), n - WHOLE;
      CutBody(seal, ledger, files, sub, i + 1, m);
      OpenOne(ledger, sub, k.ct, rest[..m], i);
      CutMore(p, i, n);
    }
  }

  lemma CutNone(p: Text, i: nat, n: nat)
    requires i < ChunkCount(p) && n < WHOLE
    ensures i * CHUNK_SIZE <= |p| && n / WHOLE == 0
    ensures CutFrom(p, i, n) == Decrypted([], if n < TAG_SIZE then Truncated else OpenFailed(i))
  {
  }

  lemma CutMore(p: Text, i: nat, n: nat)
    requires i + 1 < ChunkCount(p) && n >= WHOLE && (i + 1 + (n - WHOLE) / WHOLE) * CHUNK_SIZE <= |p|
    ensures (i + n / WHOLE) * CHUNK_SIZE <= |p|
    ensures var more := CutFrom(p, i + 1, n - WHOLE); CutFrom(p, i, n) == Decrypted(Chunk(p, i) + more.written, more.status)
  {
    OneWholeMore(n);
    NextChunk(p, i, i + n / WHOLE);
  }

  lemma OneWholeMore(n: nat)
    requires n >= WHOLE
    ensures n / WHOLE == 1 + (n - WHOLE) / WHOLE && n % WHOLE == (n - WHOLE) % WHOLE
  {
  }

  lemma BodyCut(seal: SealFn, sub: SubKey, p: Text, i: nat, n: nat)
    requires i < ChunkCount(p) && CHUNK_SIZE + TAG_SIZE <= n < |Body(seal, sub, p, i)|
    requires |SealedChunk(seal, sub, p, i).ct| == |Chunk(p, i)| + TAG_SIZE
    ensures !IsLast(p, i) && |SealedChunk(seal, sub, p, i).ct| == CHUNK_SIZE + TAG_SIZE
    ensures var rest, m := Body(seal, sub, p, i + 1), n - (CHUNK_SIZE + TAG_SIZE);
            m < |rest| && Body(seal, sub, p, i)[..n] == SealedChunk(seal, sub, p, i).ct + rest[..m]
  {
    ChunkLength(p, i);
    hide SealedChunk, Chunk;
  }

  /** Less than a whole chunk, and not the last one either. */
  lemma CutChunk(seal: SealFn, ledger: Ledger, files: Files, sub: SubKey, s: Text, i: nat)
    requires AddsTag(seal) && Honest(seal, ledger, files) && sub in files && i < ChunkCount(files[sub])
    requires |s| < CHUNK_SIZE + TAG_SIZE && |s| < |Body(seal, sub, files[sub], i)|
    ensures OpenFrom(ledger, sub, s, i) == Decrypted([], if |s| < TAG_SIZE then Truncated else OpenFailed(i))
  {
    hide ChunkNonce, ChunkAad;
    assert s[..|s|] == s;
    if |s| >= TAG_SIZE && Sealed(sub, ChunkNonce(i), ChunkAad(i, true), s) in ledger {
      OpensOnlyOwnChunk(seal, ledger, files, sub, i, true, s);
    }
  }

  lemma NextChunk(p: Text, i: nat, j: nat)
    requires i + 1 < ChunkCount(p) && i < j && j * CHUNK_SIZE <= |p|
    ensures Chunk(p, i) + p[(i + 1) * CHUNK_SIZE..j * CHUNK_SIZE] == p[i * CHUNK_SIZE..j * CHUNK_SIZE]
  {
  }

  lemma SealedUnderKnownKey(seal: SealFn, ledger: Ledger, files: Files, k: Sealed)
    requires Honest(seal, ledger, files)
    ensures k in ledger ==> k.sub in files
  {
    if k in ledger {
      var j: nat :| IsSealedChunk(seal, files, k, j);
    }
  }

  lemma UnknownKeyOpensNothing(seal: SealFn, ledger: Ledger, files: Files, sub: SubKey, s: Text)
    requires Honest(seal, ledger, files) && sub !in files
    ensures OpenFrom(ledger, sub, s, 0).written == [] && !OpenFrom(ledger, sub, s, 0).status.Ok?
  {
    var n := if |s| < CHUNK_SIZE + TAG_SIZE then |s| else CHUNK_SIZE + TAG_SIZE;
    if n >= TAG_SIZE {
      SealedUnderKnownKey(seal, ledger, files, Sealed(sub, ChunkNonce(0), ChunkAad(0, n < CHUNK_SIZE + TAG_SIZE), s[..n]));
    }
  }
}
