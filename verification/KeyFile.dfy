/** infra/atrest/protector.go: the key file's framing, and the protectors that wrap the master key.

    The ciphers and key derivations behind the protectors are ideal: what a wrapping opens to is
    looked up in a table of everything wrapped so far. */
module KeyFile {
  import opened Bytes
  import opened Results

  const KEY_SIZE := 32
  const KEY_MAGIC: Text := [0x41, 0x54, 0x52, 0x4B]
  const KEY_VERSION: Byte := 1
  const FILE_NAME: Text := [0x66, 0x69, 0x6C, 0x65]
  const PASSPHRASE_NAME: Text := [0x70, 0x61, 0x73, 0x73, 0x70, 0x68, 0x72, 0x61, 0x73, 0x65]

  const AUTO_NAME: Text := [0x61, 0x75, 0x74, 0x6F]

  // ---- Framing ----

  datatype Decoded = Raw(key: Text) | Framed(name: Text, blob: Text) | Corrupt

  /** The name's length is stored in one byte. */
  function Encode(name: Text, blob: Text): Text {
    KEY_MAGIC + [KEY_VERSION, |name| % 256] + name + blob
  }

  function Decode(data: Text): Decoded {
    if |data| == KEY_SIZE then Raw(data)
    else if |data| < 6 || data[..4] != KEY_MAGIC then Corrupt
    else if data[4] != KEY_VERSION then Corrupt
    else
      var nameLen := data[5];
      if 6 + nameLen > |data| then Corrupt
      else Framed(data[6..6 + nameLen], data[6 + nameLen..])
  }

  /** The framing round-trips exactly when the name's length fits its byte and the frame is not
      mistaken for a bare key. */
  lemma DecodeEncode(name: Text, blob: Text)
    ensures Decode(Encode(name, blob)) == Framed(name, blob)
            <==> |name| < 256 && 6 + |name| + |blob| != KEY_SIZE
  {
    var data := Encode(name, blob);
    assert data[..4] == KEY_MAGIC;
    if |data| != KEY_SIZE {
      if |name| < 256 {
        assert data[6..6 + |name|] == name && data[6 + |name|..] == blob;
      } else {
        assert Decode(data).Framed? && |Decode(data).name| == |name| % 256;
      }
    }
  }

  /** Nothing else is read as a frame: a key file is a frame exactly if it has been made by the framing, and
      a bare key exactly by its size. */
  lemma DecodesExactly(data: Text, name: Text, blob: Text)
    ensures Decode(data) == Framed(name, blob) <==> |data| != KEY_SIZE && |name| < 256 && data == Encode(name, blob)
    ensures Decode(data).Raw? <==> |data| == KEY_SIZE
  {
    if Decode(data) == Framed(name, blob) {
      var n := data[5];
      assert data == data[..4] + [data[4], n] + data[6..6 + n] + data[6 + n..];
    }
    if |data| != KEY_SIZE && |name| < 256 && data == Encode(name, blob) { DecodeEncode(name, blob); }
  }

  // ---- Protectors ----

  datatype Kek =
    | Argon(secret: Text, salt: Text, time: nat, mem: nat, threads: nat)
    | Platform(name: Text, host: nat)

  datatype Wrapping = Wrapping(kek: Kek, nonce: Text, ct: Text)

  type Table = map<Wrapping, Text>

  /** The random salt and nonce of one Wrap, and the ciphertext (a platform's whole blob) it yields. */
  datatype Draw = Draw(salt: Text, nonce: Text, ct: Text)

  predicate GoodDraw(d: Draw) {
    |d.salt| == 16 && |d.nonce| == 12 && |d.ct| >= KEY_SIZE
  }

  datatype Protector =
    | FileProtector
    | PassphraseProtector(secret: Text)
    | PlatformProtector(name: Text, host: nat)

  function NameOf(p: Protector): Text {
    match p
    case FileProtector => FILE_NAME
    case PassphraseProtector(_) => PASSPHRASE_NAME
    case PlatformProtector(name, _) => name
  }

  function WrapKek(p: Protector, d: Draw): Kek
    requires !p.FileProtector?
  {
    match p
    case PassphraseProtector(secret) => Argon(secret, d.salt, 3, 65536, 4)
    case PlatformProtector(name, host) => Platform(name, host)
  }

  function WrapBlob(p: Protector, key: Text, d: Draw): Text {
    match p
    case FileProtector => key
    case PassphraseProtector(_) =>
      [1] + BigEndian(3, 4) + BigEndian(65536, 4) + [4, 16] + d.salt + d.nonce + d.ct
    case PlatformProtector(_, _) => d.ct
  }

  function WrapTable(p: Protector, table: Table, key: Text, d: Draw): Table {
    match p
    case FileProtector => table
    case PassphraseProtector(_) => table[Wrapping(WrapKek(p, d), d.nonce, d.ct) := key]
    case PlatformProtector(_, _) => table[Wrapping(WrapKek(p, d), [], d.ct) := key]
  }

  function Lookup(table: Table, w: Wrapping): Option<Text> {
    if w in table && |table[w]| == KEY_SIZE then Some(table[w]) else None
  }

  function Unwrap(p: Protector, table: Table, blob: Text): Option<Text> {
    match p
    case FileProtector => Some(blob)
    case PassphraseProtector(secret) =>
      if |blob| < 11 || blob[0] != 1 then None
      else
        var saltLen := blob[10];
        if 11 + saltLen + 12 > |blob| then None
        else
          var kek := Argon(secret, blob[11..11 + saltLen], Value(blob[1..5]), Value(blob[5..9]), blob[9]);
          Lookup(table, Wrapping(kek, blob[11 + saltLen..23 + saltLen], blob[23 + saltLen..]))
    case PlatformProtector(name, host) => Lookup(table, Wrapping(Platform(name, host), [], blob))
  }

  /** What a protector wraps it unwraps again, through whatever layout its blob has. */
  lemma UnwrapWrap(p: Protector, table: Table, key: Text, d: Draw)
    requires GoodDraw(d) && |key| == KEY_SIZE
    ensures Unwrap(p, WrapTable(p, table, key, d), WrapBlob(p, key, d)) == Some(key)
  {
    if p.PassphraseProtector? {
      var blob := WrapBlob(p, key, d);
      assert blob[1..5] == BigEndian(3, 4) && blob[5..9] == BigEndian(65536, 4);
      assert Pow256(4) == 4294967296;
      ValueOfBigEndian(3, 4);
      ValueOfBigEndian(65536, 4);
      assert blob[9] == 4 && blob[10] == 16;
      assert blob[11..27] == d.salt && blob[27..39] == d.nonce && blob[39..] == d.ct;
    }
  }

  /** The blob of a passphrase wrapping. */
  function Layout(kek: Kek, nonce: Text, ct: Text): Text
    requires kek.Argon? && kek.threads < 256 && |kek.salt| < 256
  {
    [1] + BigEndian(kek.time, 4) + BigEndian(kek.mem, 4) + [kek.threads, |kek.salt|] + kek.salt + nonce + ct
  }

  ghost predicate IsLayout(blob: Text, secret: Text, w: Wrapping) {
    && w.kek.Argon? && w.kek.secret == secret
    && w.kek.time < Pow256(4) && w.kek.mem < Pow256(4) && w.kek.threads < 256 && |w.kek.salt| < 256
    && |w.nonce| == 12 && blob == Layout(w.kek, w.nonce, w.ct)
  }

  /** What a passphrase opens is exactly the blobs laid out of what it wrapped, with whatever parameters. */
  lemma PassphraseOpensExactly(secret: Text, table: Table, blob: Text, key: Text)
    requires |key| == KEY_SIZE
    ensures Unwrap(PassphraseProtector(secret), table, blob) == Some(key)
            <==> exists w :: IsLayout(blob, secret, w) && w in table && table[w] == key
  {
    hide BigEndian, Value, Pow256;
    if Unwrap(PassphraseProtector(secret), table, blob) == Some(key) {
      var w := ReadLayout(secret, blob);
      assert w in table;
    }
    if w :| IsLayout(blob, secret, w) && w in table && table[w] == key { LayoutReads(secret, blob, w); }
  }

  lemma ReadLayout(secret: Text, blob: Text) returns (w: Wrapping)
    requires |blob| >= 11 && blob[0] == 1 && 23 + blob[10] <= |blob|
    ensures IsLayout(blob, secret, w)
    ensures w == Wrapping(Argon(secret, blob[11..11 + blob[10]], Value(blob[1..5]), Value(blob[5..9]), blob[9]),
                          blob[11 + blob[10]..23 + blob[10]], blob[23 + blob[10]..])
  {
    var n := blob[10];
    w := Wrapping(Argon(secret, blob[11..11 + n], Value(blob[1..5]), Value(blob[5..9]), blob[9]), blob[11 + n..23 + n], blob[23 + n..]);
    BigEndianOfValue(blob[1..5]);
    BigEndianOfValue(blob[5..9]);
    hide BigEndian, Value, Pow256;
    assert blob == [1] + blob[1..5] + blob[5..9] + [blob[9], n] + blob[11..11 + n] + blob[11 + n..23 + n] + blob[23 + n..];
  }

  lemma LayoutReads(secret: Text, blob: Text, w: Wrapping)
    requires IsLayout(blob, secret, w)
    ensures |blob| >= 11 && blob[0] == 1 && 23 + blob[10] <= |blob|
    ensures w == Wrapping(Argon(secret, blob[11..11 + blob[10]], Value(blob[1..5]), Value(blob[5..9]), blob[9]),
                          blob[11 + blob[10]..23 + blob[10]], blob[23 + blob[10]..])
  {
    ValueOfBigEndian(w.kek.time, 4);
    ValueOfBigEndian(w.kek.mem, 4);
    hide BigEndian, Value, Pow256;
    var n := |w.kek.salt|;
    assert blob[1..5] == BigEndian(w.kek.time, 4) && blob[5..9] == BigEndian(w.kek.mem, 4);
    assert blob[9] == w.kek.threads && blob[10] == n;
    assert blob[11..11 + n] == w.kek.salt && blob[11 + n..23 + n] == w.nonce && blob[23 + n..] == w.ct;
  }

  /** A protector other than "file" opens only what was wrapped. */
  lemma UnwrapsOnlyWrapped(p: Protector, table: Table, blob: Text)
    requires !p.FileProtector? && Unwrap(p, table, blob).Some?
    ensures exists w :: w in table && Unwrap(p, table, blob).value == table[w]
                     && (p.PassphraseProtector? ==> w.kek.Argon? && w.kek.secret == p.secret)
  {
    match p
    case PassphraseProtector(secret) =>
      var saltLen := blob[10];
      var kek := Argon(secret, blob[11..11 + saltLen], Value(blob[1..5]), Value(blob[5..9]), blob[9]);
      var w := Wrapping(kek, blob[11 + saltLen..23 + saltLen], blob[23 + saltLen..]);
      assert w in table;
    case PlatformProtector(name, host) =>
      assert Wrapping(Platform(name, host), [], blob) in table;
  }
}
