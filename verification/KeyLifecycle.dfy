/** infra/atrest/startup.go and infra/atrest/keystore.go: how a host comes by its master key, boot
    after boot.

    The disk is the key file, the install marker and the recovery escrow.  Every read, write, copy,
    rename, removal or look for a file that can fail, and so change what a boot does, is a field of
    `Luck`; what a theorem assumes of them it says.  The ciphers' memory holds the wraps of one
    installation, unless a lemma says otherwise: no escrow of another one can be opened here. */
module KeyLifecycle {
  import opened Bytes
  import opened Results
  import opened KeyFile
  import opened ProtectorNames

  /** security.*: the protector asked for, the passphrase if one resolves, and whether a recovery
      path is configured. */
  datatype Config = Config(name: Text, pass: Option<Text>, recovery: bool)

  /** The machine a boot happens on: its identity, and its platform protector if it has one. */
  datatype Env = Env(host: nat, platform: Option<Text>)

  datatype Disk = Disk(keyFile: Option<Text>, marker: Option<nat>, recovery: Option<Text>, table: Table)

  datatype KeyStore = KeyStore(key: Text, protector: Text)

  datatype Mode = Loaded | Restored | Created

  datatype Outcome =
    | Failed
    | Open(mode: Mode, ks: KeyStore, keyId: nat)
    | RecoveryPending(keyId: nat)

  /** What chance decides in one load: the fresh key, the wrap's randomness, and failing I/O. */
  datatype Load = Load(minted: Text, draw: Draw, readFails: bool, writeFails: bool)

  /** The escrow is copied to the key path in place, so a failing copy can leave a part behind. */
  datatype Copy = Copied | NotStarted | StoppedAt(n: nat)

  /** A file that is there but not seen counts as absent, and so does a marker that cannot be read or
      parsed.  Both paths are looked at twice when a recovery is tried, and the marker a second time
      when a key has been opened. */
  datatype Looks = Looks(keyUnseen: bool, recoveryUnseen: bool, keyUnseenAgain: bool, recoveryUnseenAgain: bool,
                         markerUnread: bool, markerUnreadAgain: bool)

  datatype Luck = Luck(first: Load, second: Load, escrowReadFails: bool, copy: Copy, removeFails: bool,
                       renameFails: bool, newId: nat, markerFails: bool, looks: Looks)

  function DefaultName(env: Env): Text {
    if env.platform.Some? then env.platform.value else FILE_NAME
  }

  function NewProtector(cfg: Config, env: Env): Option<Protector> {
    var asked := Normal(cfg.name);
    var name := if asked == [] || asked == AUTO_NAME then DefaultName(env) else asked;
    if name == FILE_NAME then Some(FileProtector)
    else if name == PASSPHRASE_NAME then
      if cfg.pass.Some? then Some(PassphraseProtector(cfg.pass.value)) else None
    else if env.platform == Some(name) then Some(PlatformProtector(name, env.host))
    else None
  }

  /** writeKeyFile, succeeding: a bare key for the file protector, a framed wrap otherwise. */
  function KeyFileBytes(p: Protector, key: Text, draw: Draw): Text {
    if NameOf(p) == FILE_NAME then WrapBlob(p, key, draw) else Encode(NameOf(p), WrapBlob(p, key, draw))
  }

  function Install(d: Disk, p: Protector, key: Text, draw: Draw): Disk {
    d.(keyFile := Some(KeyFileBytes(p, key, draw)), table := WrapTable(p, d.table, key, draw))
  }

  /** The protector that wrote the file, and the blob it wrote. */
  function SourceOf(data: Text, desired: Protector, cfg: Config, env: Env): Option<(Protector, Text)> {
    match Decode(data)
    case Corrupt => None
    case Raw(key) => Some((FileProtector, key))
    case Framed(name, blob) =>
      if name == FILE_NAME then Some((FileProtector, blob))
      else if name == NameOf(desired) then Some((desired, blob))
      else
        var src := NewProtector(cfg.(name := name), env);
        if src.Some? then Some((src.value, blob)) else None
  }

  /** The key in a key file, if it can be opened here and has the right size. */
  function KeyIn(data: Text, table: Table, desired: Protector, cfg: Config, env: Env): Option<(Protector, Text)> {
    var src := SourceOf(data, desired, cfg, env);
    if src.None? then None
    else
      var key := Unwrap(src.value.0, table, src.value.1);
      if key.Some? && |key.value| == KEY_SIZE then Some((src.value.0, key.value)) else None
  }

  function LoadOrCreate(d: Disk, cfg: Config, env: Env, t: Load): (Disk, Option<KeyStore>) {
    var desired := NewProtector(cfg, env);
    if desired.None? then (d, None)
    else
      var p := desired.value;
      if d.keyFile.None? then
        if t.writeFails then (d, None)
        else (Install(d, p, t.minted, t.draw), Some(KeyStore(t.minted, NameOf(p))))
      else if t.readFails then (d, None)
      else
        var found := KeyIn(d.keyFile.value, d.table, p, cfg, env);
        if found.None? then (d, None)
        else if NameOf(found.value.0) == NameOf(p) then (d, Some(KeyStore(found.value.1, NameOf(p))))
        else if t.writeFails then (d, None)
        else (Install(d, p, found.value.1, t.draw), Some(KeyStore(found.value.1, NameOf(p))))
  }

  predicate IsEscrow(data: Text) {
    Decode(data).Framed? && Decode(data).name == PASSPHRASE_NAME
  }

  /** Bootstrapping from the recovery file, when the key file is absent. */
  function Recover(d: Disk, cfg: Config, env: Env, luck: Luck): (Disk, Option<KeyStore>)
    requires d.recovery.Some?
  {
    var data := d.recovery.value;
    if luck.escrowReadFails || !IsEscrow(data) || luck.copy.NotStarted? then (d, None)
    else if luck.copy.StoppedAt? then
      (d.(keyFile := Some(if luck.copy.n < |data| then data[..luck.copy.n] else data)), None)
    else
      var (d1, ks) := LoadOrCreate(d.(keyFile := Some(data)), cfg, env, luck.first);
      if ks.None? then (if luck.removeFails then d1 else d1.(keyFile := None), None)
      else (if luck.renameFails then d1 else d1.(recovery := None), ks)
  }

  predicate SeesKey(d: Disk, luck: Luck) { d.keyFile.Some? && !luck.looks.keyUnseen }

  predicate SeesMarker(d: Disk, luck: Luck) { d.marker.Some? && !luck.looks.markerUnread }

  function KeyIdOf(d: Disk, luck: Luck): nat {
    if d.marker.Some? && !luck.looks.markerUnreadAgain then d.marker.value else luck.newId
  }

  function EnsureMarker(d: Disk, luck: Luck): Disk {
    if (d.marker.Some? && !luck.looks.markerUnreadAgain) || luck.markerFails then d
    else d.(marker := Some(luck.newId))
  }

  function Opened(mode: Mode, r: (Disk, Option<KeyStore>), luck: Luck): (Disk, Outcome) {
    if r.1.None? then (r.0, Failed)
    else (EnsureMarker(r.0, luck), Open(mode, r.1.value, KeyIdOf(r.0, luck)))
  }

  /** Whether LoadOrCreateWithRecovery, at its own look, finds nothing to recover or no need to. */
  predicate JustLoads(d: Disk, cfg: Config, luck: Luck) {
    || !cfg.recovery || (d.keyFile.Some? && !luck.looks.keyUnseenAgain)
    || d.recovery.None? || luck.looks.recoveryUnseenAgain
  }

  function LoadOrRecover(d: Disk, cfg: Config, env: Env, luck: Luck): (Disk, Option<KeyStore>) {
    if JustLoads(d, cfg, luck) then LoadOrCreate(d, cfg, env, luck.first) else Recover(d, cfg, env, luck)
  }

  predicate TriesRecovery(d: Disk, cfg: Config, luck: Luck) {
    cfg.recovery && d.recovery.Some? && !luck.looks.recoveryUnseen && cfg.pass.Some?
  }

  /** The attempt to recover that a boot makes which sees no key file. */
  function Tried(d: Disk, cfg: Config, env: Env, luck: Luck): (Disk, Option<KeyStore>) {
    if TriesRecovery(d, cfg, luck) then LoadOrRecover(d, cfg, env, luck) else (d, None)
  }

  /** OpenForStartup, by its order of precedence. */
  function Boot(d: Disk, cfg: Config, env: Env, luck: Luck): (Disk, Outcome) {
    if SeesKey(d, luck) then Opened(Loaded, LoadOrCreate(d, cfg, env, luck.second), luck)
    else
      var tried := Tried(d, cfg, env, luck);
      if tried.1.Some? then Opened(Restored, tried, luck)
      else if SeesMarker(tried.0, luck) then (tried.0, RecoveryPending(tried.0.marker.value))
      else Opened(Created, LoadOrCreate(tried.0, cfg, env, luck.second), luck)
  }

  /** RestoreFromEscrow: any bytes may be offered as the escrow. */
  function RestoreFromEscrow(d: Disk, escrow: Text, pass: Text, cfg: Config, env: Env, t: Load): (Disk, bool) {
    if !IsEscrow(escrow) then (d, false)
    else
      var key := Unwrap(PassphraseProtector(pass), d.table, Decode(escrow).blob);
      var desired := NewProtector(cfg, env);
      if key.None? || desired.None? || t.writeFails then (d, false)
      else (Install(d, desired.value, key.value, t.draw), true)
  }

  // ---- What the disk can open to ----

  /** A key file that can only ever open to `key`: a bare copy of it, or a framed wrap. */
  predicate SafeFile(data: Text, key: Text) {
    Decode(data) == Raw(key) || NeverBare(data)
  }

  /** A file that holds no bare key: corrupt, or the wrap of some other protector. */
  predicate NeverBare(data: Text) {
    match Decode(data)
    case Raw(_) => false
    case Framed(name, _) => !MayBeBare(name)
    case Corrupt => true
  }

  /** The framed names for which the blob may be taken as it stands: a protector name read from a
      key file is trimmed, lower-cased and given the same defaults as a configured one. */
  predicate MayBeBare(name: Text) {
    Normal(name) == FILE_NAME || Normal(name) == AUTO_NAME || Normal(name) == []
  }

  lemma NamesAreNormal()
    ensures Normal(FILE_NAME) == FILE_NAME && Normal(PASSPHRASE_NAME) == PASSPHRASE_NAME && Normal(AUTO_NAME) == AUTO_NAME
  {
    hide Normal;
    PlainIsNormal(FILE_NAME);
    PlainIsNormal(PASSPHRASE_NAME);
    PlainIsNormal(AUTO_NAME);
  }

  /** Everything on the disk, and everything ever wrapped, leads to `key` or to nothing. */
  ghost predicate LeadsTo(d: Disk, key: Text) {
    && |key| == KEY_SIZE
    && (forall w | w in d.table :: d.table[w] == key)
    && (d.keyFile.Some? ==> SafeFile(d.keyFile.value, key))
  }

  predicate SaneEnv(env: Env) {
    env.platform.Some? ==>
      |env.platform.value| < 256 && env.platform.value != [] && Normal(env.platform.value) == env.platform.value
      && env.platform.value != FILE_NAME && env.platform.value != PASSPHRASE_NAME && env.platform.value != AUTO_NAME
  }

  predicate SaneLoad(t: Load) {
    GoodDraw(t.draw) && |t.minted| == KEY_SIZE
  }

  predicate SaneLuck(luck: Luck) {
    SaneLoad(luck.first) && SaneLoad(luck.second)
  }

  lemma NewProtectorNames(cfg: Config, env: Env)
    requires SaneEnv(env) && NewProtector(cfg, env).Some?
    ensures var p := NewProtector(cfg, env).value;
            |NameOf(p)| < 256 && (MayBeBare(NameOf(p)) <==> p.FileProtector?) && (NameOf(p) == FILE_NAME <==> p.FileProtector?)
  {
    hide Normal;
    NamesAreNormal();
  }

  lemma InstallIsSafe(d: Disk, cfg: Config, env: Env, key: Text, draw: Draw)
    requires SaneEnv(env) && NewProtector(cfg, env).Some? && GoodDraw(draw) && |key| == KEY_SIZE
    requires forall w | w in d.table :: d.table[w] == key
    ensures LeadsTo(Install(d, NewProtector(cfg, env).value, key, draw), key)
  {
    hide Normal;
    NewProtectorNames(cfg, env);
    var p := NewProtector(cfg, env).value;
    DecodeEncode(NameOf(p), WrapBlob(p, key, draw));
  }

  /** Whatever a safe key file opens to is `key`. */
  lemma SafeFileOpens(data: Text, table: Table, desired: Protector, cfg: Config, env: Env, key: Text)
    requires SafeFile(data, key) && forall w | w in table :: table[w] == key
    requires NameOf(desired) == FILE_NAME <==> desired.FileProtector?
    requires SaneEnv(env)
    ensures var found := KeyIn(data, table, desired, cfg, env); found.Some? ==> found.value.1 == key
  {
    hide Normal;
    NamesAreNormal();
    var src := SourceOf(data, desired, cfg, env);
    if src.Some? {
      var (p, blob) := src.value;
      if Decode(data).Framed? { assert !p.FileProtector?; }
      if !p.FileProtector? && Unwrap(p, table, blob).Some? {
        UnwrapsOnlyWrapped(p, table, blob);
      }
    }
  }

  /** On a host without a platform protector, a framed file of a bare key's size opens as a bare key
      exactly if its name may be taken for "file": for other names nothing but a wrap opens. */
  lemma BareNames(name: Text, blob: Text, cfg: Config, host: nat)
    requires |name| < 256 && |blob| == KEY_SIZE && NewProtector(cfg, Env(host, None)).Some?
    ensures var env := Env(host, None);
            KeyIn(Encode(name, blob), map[], NewProtector(cfg, env).value, cfg, env) == Some((FileProtector, blob))
            <==> MayBeBare(name)
  {
    hide Normal, Encode, Decode;
    NamesAreNormal();
    DecodeEncode(name, blob);
  }

  /** "FILE", " file ", "Auto" and no name at all are such names. */
  lemma BareNameExamples()
    ensures MayBeBare([0x46, 0x49, 0x4C, 0x45]) && MayBeBare([0x20] + FILE_NAME + [0x20])
    ensures MayBeBare([0x41, 0x75, 0x74, 0x6F]) && MayBeBare([])
    ensures !MayBeBare(PASSPHRASE_NAME)
  {
    hide Normal;
    NamesAreNormal();
    Capitals();
    Surrounded(FILE_NAME);
  }

  lemma LoadKeepsKey(d: Disk, cfg: Config, env: Env, t: Load, key: Text)
    requires SaneEnv(env) && SaneLoad(t) && LeadsTo(d, key) && d.keyFile.Some?
    ensures var (d', ks) := LoadOrCreate(d, cfg, env, t);
            && LeadsTo(d', key) && d'.keyFile.Some? && d'.marker == d.marker && d'.recovery == d.recovery
            && (ks.Some? ==> ks.value.key == key)
  {
    hide Normal;
    if NewProtector(cfg, env).Some? {
      NewProtectorNames(cfg, env);
      var p := NewProtector(cfg, env).value;
      SafeFileOpens(d.keyFile.value, d.table, p, cfg, env, key);
      InstallIsSafe(d, cfg, env, key, t.draw);
    }
  }

  /** On one machine and with one passphrase a protector is told by its name. */
  lemma NameTells(cfg: Config, other: Config, env: Env)
    requires SaneEnv(env) && cfg.pass == other.pass && NewProtector(cfg, env).Some? && NewProtector(other, env).Some?
    requires NameOf(NewProtector(cfg, env).value) == NameOf(NewProtector(other, env).value)
    ensures NewProtector(cfg, env) == NewProtector(other, env)
  {
    hide Normal;
  }

  /** The protector's own name asks for it. */
  lemma OwnName(cfg: Config, env: Env)
    requires SaneEnv(env) && NewProtector(cfg, env).Some?
    ensures var p := NewProtector(cfg, env).value; NewProtector(cfg.(name := NameOf(p)), env) == Some(p)
  {
    hide Normal;
    NamesAreNormal();
  }

  /** What opens a key file is the protector that its frame names. */
  lemma SourceIsNamed(data: Text, table: Table, cfg: Config, env: Env)
    requires SaneEnv(env) && NewProtector(cfg, env).Some?
    requires KeyIn(data, table, NewProtector(cfg, env).value, cfg, env).Some?
    ensures var q := KeyIn(data, table, NewProtector(cfg, env).value, cfg, env).value.0;
            if Decode(data).Raw? then q == FileProtector
            else Decode(data).Framed? && NewProtector(cfg.(name := Decode(data).name), env) == Some(q)
  {
    hide Normal, Unwrap;
    NamesAreNormal();
    OwnName(cfg, env);
  }

  /** A load settles the key file: it is left opening to the key through the very protector that is
      configured, whatever protector it was found under, so that no bare key remains under another
      protector's name; and a second load finds nothing left to do. */
  lemma LoadSettles(d: Disk, cfg: Config, env: Env, t: Load, again: Load)
    requires SaneEnv(env) && SaneLoad(t) && LoadOrCreate(d, cfg, env, t).1.Some? && !again.readFails
    ensures NewProtector(cfg, env).Some?
    ensures var (d', ks) := LoadOrCreate(d, cfg, env, t);
            var p := NewProtector(cfg, env).value;
            && d'.keyFile.Some? && ks.value.protector == NameOf(p)
            && KeyIn(d'.keyFile.value, d'.table, p, cfg, env) == Some((p, ks.value.key))
            && (match Decode(d'.keyFile.value)
                case Raw(key) => ks.value == KeyStore(key, FILE_NAME)
                case Framed(name, _) => NewProtector(cfg.(name := name), env) == Some(p)
                case Corrupt => false)
            && (d' != d ==> Decode(d'.keyFile.value) == InstalledFrame(p, ks.value.key, t.draw))
            && LoadOrCreate(d', cfg, env, again) == (d', ks)
  {
    var (d', ks) := LoadOrCreate(d, cfg, env, t);
    var p, key := NewProtector(cfg, env).value, ks.value.key;
    NewProtectorNames(cfg, env);
    hide Normal, NewProtector, Unwrap, Encode, Decode, WrapTable;
    if d.keyFile.Some? && NameOf(KeyIn(d.keyFile.value, d.table, p, cfg, env).value.0) == NameOf(p) {
      SourceIsNamed(d.keyFile.value, d.table, cfg, env);
      if !Decode(d.keyFile.value).Raw? { NameTells(cfg, cfg.(name := Decode(d.keyFile.value).name), env); }
    } else {
      hide KeyIn;
      InstalledOpens(d, cfg, env, key, t.draw);
      InstalledIsFramed(p, key, t.draw);
      OwnName(cfg, env);
    }
  }

  /** A bare key for the file protector, a frame with its own name for every other. */
  function InstalledFrame(p: Protector, key: Text, draw: Draw): Decoded {
    if p.FileProtector? then Raw(key) else Framed(NameOf(p), WrapBlob(p, key, draw))
  }

  lemma InstalledIsFramed(p: Protector, key: Text, draw: Draw)
    requires GoodDraw(draw) && |key| == KEY_SIZE && |NameOf(p)| < 256 && (NameOf(p) == FILE_NAME <==> p.FileProtector?)
    ensures Decode(KeyFileBytes(p, key, draw)) == InstalledFrame(p, key, draw)
  {
    hide Encode;
    DecodeEncode(NameOf(p), WrapBlob(p, key, draw));
  }

  /** The protector is never another than the one asked for, "auto" and no name asking for the machine's
      own where there is one; and where there is, they leave no bare key on the disk. */
  lemma AskedIsGiven(d: Disk, cfg: Config, env: Env, t: Load)
    requires SaneEnv(env) && SaneLoad(t) && LoadOrCreate(d, cfg, env, t).1.Some?
    ensures var (d', ks) := LoadOrCreate(d, cfg, env, t);
            var auto := Normal(cfg.name) == [] || Normal(cfg.name) == AUTO_NAME;
            && d'.keyFile.Some?
            && (!auto ==> ks.value.protector == Normal(cfg.name))
            && (auto && env.platform.Some? ==> ks.value.protector == env.platform.value && !Decode(d'.keyFile.value).Raw?)
            && (auto && env.platform.None? ==> ks.value.protector == FILE_NAME)
  {
    LoadSettles(d, cfg, env, t, t.(readFails := false));
    hide Decode, LoadOrCreate, KeyIn, NewProtector, SaneLoad;
    NameAsked(cfg, env);
    assert SaneEnv(env);
    hide Normal, NameOf;
  }

  lemma NameAsked(cfg: Config, env: Env)
    requires SaneEnv(env) && NewProtector(cfg, env).Some?
    ensures var name, auto := NameOf(NewProtector(cfg, env).value), Normal(cfg.name) == [] || Normal(cfg.name) == AUTO_NAME;
            && (!auto ==> name == Normal(cfg.name))
            && (auto && env.platform.Some? ==> name == env.platform.value && name != FILE_NAME)
            && (auto && env.platform.None? ==> name == FILE_NAME)
  {
    hide Normal;
  }

  /** A load succeeds exactly if the protector asked for can be built and, without a key file, one can be
      written; with one, it can be read, opens, and is the protector's own already or can be rewritten.
      One that does not succeed changes nothing. */
  lemma LoadSucceedsExactly(d: Disk, cfg: Config, env: Env, t: Load)
    requires SaneEnv(env)
    ensures LoadOrCreate(d, cfg, env, t).1.Some? <==> NewProtector(cfg, env).Some? && CanLoad(d, cfg, env, t)
    ensures var (d', ks) := LoadOrCreate(d, cfg, env, t);
            && (ks.None? ==> d' == d)
            && (ks.Some? && d.keyFile.Some? ==>
                  ks.value.key == KeyIn(d.keyFile.value, d.table, NewProtector(cfg, env).value, cfg, env).value.1)
  {
    if NewProtector(cfg, env).Some? && d.keyFile.Some? {
      var p := NewProtector(cfg, env).value;
      var found := KeyIn(d.keyFile.value, d.table, p, cfg, env);
      if found.Some? { FoundIsOwn(d.keyFile.value, d.table, cfg, env); }
    }
    hide NewProtector, KeyIn, Install, NameOf;
  }

  predicate CanLoad(d: Disk, cfg: Config, env: Env, t: Load)
    requires NewProtector(cfg, env).Some?
  {
    var p := NewProtector(cfg, env).value;
    if d.keyFile.None? then !t.writeFails
    else
      var found := KeyIn(d.keyFile.value, d.table, p, cfg, env);
      !t.readFails && found.Some? && (found.value.0 == p || !t.writeFails)
  }

  lemma FoundIsOwn(data: Text, table: Table, cfg: Config, env: Env)
    requires SaneEnv(env) && NewProtector(cfg, env).Some?
    requires KeyIn(data, table, NewProtector(cfg, env).value, cfg, env).Some?
    ensures var p := NewProtector(cfg, env).value;
            var q := KeyIn(data, table, p, cfg, env).value.0;
            q == p <==> NameOf(q) == NameOf(p)
  {
    SourceIsNamed(data, table, cfg, env);
    NewProtectorNames(cfg, env);
    hide Normal, NewProtector, KeyIn, Decode;
    var p := NewProtector(cfg, env).value;
    var q := KeyIn(data, table, p, cfg, env).value.0;
    if !Decode(data).Raw? && NameOf(q) == NameOf(p) { NameTells(cfg, cfg.(name := Decode(data).name), env); }
  }

  /** Which protectors can be built: "file" always, "passphrase" if there is one, the machine's own under its
      name, and what "auto" or no name stands for; every other name is an error. */
  lemma ProtectorBuilds(cfg: Config, env: Env)
    requires SaneEnv(env)
    ensures NewProtector(cfg, env).Some? <==>
              || Normal(cfg.name) in {[], AUTO_NAME, FILE_NAME}
              || (Normal(cfg.name) == PASSPHRASE_NAME && cfg.pass.Some?)
              || env.platform == Some(Normal(cfg.name))
  {
    hide Normal;
  }

  /** The one way a failing copy does harm: stopping after exactly 32 bytes, which read as a bare key. */
  predicate HarmlessCopy(luck: Luck) {
    luck.copy.StoppedAt? ==> luck.copy.n != KEY_SIZE
  }

  /** A part of an escrow reads as a bare key exactly when it has a bare key's length. */
  lemma PartOfEscrow(data: Text, n: nat)
    requires IsEscrow(data) && n <= |data|
    ensures NeverBare(data[..n]) <==> n != KEY_SIZE
  {
    hide Normal;
    NamesAreNormal();
    var part := data[..n];
    if n != KEY_SIZE && n >= 6 && part[..4] == KEY_MAGIC {
      assert part[4] == data[4] && part[5] == data[5];
      assert Decode(data).name == data[6..6 + data[5]];
      if Decode(part).Framed? {
        assert Decode(part).name == part[6..6 + part[5]] == data[6..6 + data[5]];
      }
    }
  }

  lemma RecoverKeepsKey(d: Disk, cfg: Config, env: Env, luck: Luck, key: Text)
    requires SaneEnv(env) && SaneLuck(luck) && HarmlessCopy(luck)
    requires LeadsTo(d, key) && d.recovery.Some?
    ensures var (d', ks) := Recover(d, cfg, env, luck);
            && LeadsTo(d', key) && d'.marker == d.marker
            && (ks.Some? ==> ks.value.key == key && d'.keyFile.Some?)
  {
    hide Normal;
    NamesAreNormal();
    var data := d.recovery.value;
    if IsEscrow(data) {
      if luck.copy.StoppedAt? {
        PartOfEscrow(data, if luck.copy.n < |data| then luck.copy.n else |data|);
        assert data[..|data|] == data;
      }
      LoadKeepsKey(d.(keyFile := Some(data)), cfg, env, luck.first, key);
    }
  }

  // ---- What a boot may overlook ----

  /** What can make a boot mint a second key: it sees no key file, and then either looks for a file to
      recover from and no longer finds it, with no key file there, or recovers nothing, is left without
      a key file, and sees no marker. */
  predicate Overlooks(d: Disk, cfg: Config, env: Env, luck: Luck) {
    && !SeesKey(d, luck)
    && var tried := Tried(d, cfg, env, luck);
       if tried.1.Some? then d.keyFile.None? && JustLoads(d, cfg, luck)
       else tried.0.keyFile.None? && !SeesMarker(d, luck)
  }

  /** Without a key file a load makes a key, or fails. */
  lemma LoadMints(d: Disk, cfg: Config, env: Env, t: Load)
    requires d.keyFile.None?
    ensures var (d', ks) := LoadOrCreate(d, cfg, env, t);
            && (ks.Some? <==> NewProtector(cfg, env).Some? && !t.writeFails)
            && (if ks.Some? then ks.value.key == t.minted && d'.keyFile.Some? else d' == d)
            && d'.marker == d.marker
  {
    hide NewProtector;
  }

  lemma LoadKeepsMarker(d: Disk, cfg: Config, env: Env, t: Load)
    ensures LoadOrCreate(d, cfg, env, t).0.marker == d.marker && LoadOrCreate(d, cfg, env, t).0.recovery == d.recovery
    ensures d.keyFile.Some? ==> LoadOrCreate(d, cfg, env, t).0.keyFile.Some?
  {
    hide NewProtector, KeyIn;
  }

  lemma TriedKeepsMarker(d: Disk, cfg: Config, env: Env, luck: Luck)
    ensures Tried(d, cfg, env, luck).0.marker == d.marker
  {
    hide LoadOrCreate;
    LoadKeepsMarker(d, cfg, env, luck.first);
    if d.recovery.Some? { LoadKeepsMarker(d.(keyFile := Some(d.recovery.value)), cfg, env, luck.first); }
  }

  /** A boot reports a key as created exactly if it sees neither key file nor marker, recovers nothing,
      and its load succeeds; the key is a new one exactly if no key file was there for that load. */
  lemma CreatedExactly(d: Disk, cfg: Config, env: Env, luck: Luck)
    ensures var (d', out) := Boot(d, cfg, env, luck);
            var tried := Tried(d, cfg, env, luck);
            && (out.Open? && out.mode.Created? <==>
                  !SeesKey(d, luck) && tried.1.None? && !SeesMarker(d, luck)
                  && LoadOrCreate(tried.0, cfg, env, luck.second).1.Some?)
            && (out.Open? && out.mode.Created? && tried.0.keyFile.None? ==> out.ks.key == luck.second.minted)
  {
    hide LoadOrCreate, Recover;
    TriedKeepsMarker(d, cfg, env, luck);
    var tried := Tried(d, cfg, env, luck);
    if tried.0.keyFile.None? { LoadMints(tried.0, cfg, env, luck.second); }
  }

  lemma TriedKeepsKey(d: Disk, cfg: Config, env: Env, luck: Luck, key: Text)
    requires SaneEnv(env) && SaneLuck(luck) && HarmlessCopy(luck) && LeadsTo(d, key)
    requires d.keyFile.Some? || !JustLoads(d, cfg, luck) || Tried(d, cfg, env, luck).1.None?
    ensures var (d', ks) := Tried(d, cfg, env, luck);
            && LeadsTo(d', key) && d'.marker == d.marker
            && (ks.Some? ==> ks.value.key == key && d'.keyFile.Some?)
  {
    hide LoadOrCreate, Recover, LeadsTo;
    if TriesRecovery(d, cfg, luck) {
      if !JustLoads(d, cfg, luck) {
        RecoverKeepsKey(d, cfg, env, luck, key);
      } else if d.keyFile.Some? {
        LoadKeepsKey(d, cfg, env, luck.first, key);
      } else {
        LoadMints(d, cfg, env, luck.first);
      }
    }
  }

  /** Once a key leads the disk and something remembers it, a boot that overlooks nothing keeps it: if it
      opens it opens that key, and key file or marker still stand. */
  lemma BootKeepsKey(d: Disk, cfg: Config, env: Env, luck: Luck, key: Text)
    requires SaneEnv(env) && SaneLuck(luck) && HarmlessCopy(luck)
    requires LeadsTo(d, key) && (d.keyFile.Some? || d.marker.Some?) && !Overlooks(d, cfg, env, luck)
    ensures var (d', out) := Boot(d, cfg, env, luck);
            && LeadsTo(d', key) && (d'.keyFile.Some? || d'.marker.Some?)
            && (d.marker.Some? ==> d'.marker.Some? && (d'.marker == d.marker || luck.looks.markerUnreadAgain))
            && (out.Open? ==> out.ks.key == key && d'.keyFile.Some?)
  {
    hide LoadOrCreate, Tried, SafeFile;
    if SeesKey(d, luck) {
      LoadKeepsKey(d, cfg, env, luck.second, key);
    } else {
      TriedKeepsKey(d, cfg, env, luck, key);
      var (d1, ks) := Tried(d, cfg, env, luck);
      if ks.None? && !SeesMarker(d1, luck) { LoadKeepsKey(d1, cfg, env, luck.second, key); }
    }
  }

  /** The condition is exact: over a disk that leads to a key, a boot that opens opens another one if and
      only if it overlooks what there is, provided the keys it would mint are new. */
  lemma OverlookingMints(d: Disk, cfg: Config, env: Env, luck: Luck, key: Text)
    requires SaneEnv(env) && SaneLuck(luck) && HarmlessCopy(luck)
    requires LeadsTo(d, key) && (d.keyFile.Some? || d.marker.Some?)
    requires luck.first.minted != key && luck.second.minted != key && Boot(d, cfg, env, luck).1.Open?
    ensures Boot(d, cfg, env, luck).1.ks.key != key <==> Overlooks(d, cfg, env, luck)
  {
    hide LoadOrCreate, Recover, LeadsTo;
    if Overlooks(d, cfg, env, luck) {
      TriedKeepsMarker(d, cfg, env, luck);
      var (d1, ks) := Tried(d, cfg, env, luck);
      if ks.Some? { LoadMints(d, cfg, env, luck.first); } else { LoadMints(d1, cfg, env, luck.second); }
    } else {
      BootKeepsKey(d, cfg, env, luck, key);
    }
  }

  /** Nothing is overlooked by a boot that sees the key file, or that reads the marker and does not lose
      sight of the recovery file between its two looks. */
  lemma SightedBoot(d: Disk, cfg: Config, env: Env, luck: Luck)
    requires SeesKey(d, luck) || (SeesMarker(d, luck) && !luck.looks.recoveryUnseenAgain)
    ensures !Overlooks(d, cfg, env, luck)
  {
  }

  /** The gate: with a marker that is read and no key file that is seen, a boot recovers or asks for
      recovery under the marker's id, and asking leaves the marker as it was; it is passed over exactly
      if the marker is not read. */
  lemma GateIsExact(d: Disk, cfg: Config, env: Env, luck: Luck)
    requires d.marker.Some? && !SeesKey(d, luck)
    ensures var (d', out) := Boot(d, cfg, env, luck);
            && (out.RecoveryPending? <==> Tried(d, cfg, env, luck).1.None? && !luck.looks.markerUnread)
            && (out.RecoveryPending? ==> out.keyId == d.marker.value && d'.marker == d.marker)
            && (out.RecoveryPending? && !TriesRecovery(d, cfg, luck) ==> d' == d)
            && (out.Open? && !out.mode.Restored? ==> luck.looks.markerUnread)
  {
    hide LoadOrCreate, Recover;
    TriedKeepsMarker(d, cfg, env, luck);
  }

  /** A marker that stands but is not read does not protect the key: with the key file lost and nothing
      to recover from, the next start mints another one, and puts another marker in its place if it
      cannot read the old one then either. */
  lemma UnreadMarkerForgets(d: Disk, cfg: Config, env: Env, luck: Luck)
    requires d.keyFile.None? && luck.looks.markerUnread && !cfg.recovery
    requires NewProtector(cfg, env).Some? && !luck.second.writeFails
    ensures var (d', out) := Boot(d, cfg, env, luck);
            && out.Open? && out.mode.Created? && out.ks.key == luck.second.minted
            && (luck.looks.markerUnreadAgain && !luck.markerFails ==> d'.marker == Some(luck.newId))
  {
    LoadMints(d, cfg, env, luck.second);
  }

  /** A key file that is not seen, with no marker, is loaded all the same, but reported as created. */
  lemma UnseenKeyIsCreated(d: Disk, cfg: Config, env: Env, luck: Luck)
    requires d.keyFile.Some? && luck.looks.keyUnseen && !cfg.recovery && d.marker.None?
    requires LoadOrCreate(d, cfg, env, luck.second).1.Some?
    ensures var out := Boot(d, cfg, env, luck).1;
            out.Open? && out.mode.Created? && Some(out.ks) == LoadOrCreate(d, cfg, env, luck.second).1
  {
  }

  /** A key file that is not seen twice is overwritten by a recovery, and removed if that does not open. */
  lemma UnseenKeyIsRemoved(d: Disk, cfg: Config, env: Env, luck: Luck)
    requires luck.looks.keyUnseen && luck.looks.keyUnseenAgain && !luck.removeFails
    requires TriesRecovery(d, cfg, luck) && !luck.looks.recoveryUnseenAgain
    requires IsEscrow(d.recovery.value) && !luck.escrowReadFails && luck.copy.Copied?
    requires LoadOrCreate(d.(keyFile := d.recovery), cfg, env, luck.first).1.None?
    ensures Tried(d, cfg, env, luck).1.None? && Tried(d, cfg, env, luck).0.keyFile.None?
    ensures SeesMarker(d, luck) ==> Boot(d, cfg, env, luck).0.keyFile.None?
  {
    hide LoadOrCreate;
    TriedKeepsMarker(d, cfg, env, luck);
  }

  /** The key id a boot reports is the one it leaves in the marker, unless the marker cannot be written:
      and that is the id that a later gate asks for, and a later start reports. */
  lemma KeyIdRemembered(d: Disk, cfg: Config, env: Env, luck: Luck, cfg': Config, env': Env, later: Luck)
    requires Boot(d, cfg, env, luck).1.Open? && (!luck.markerFails || (d.marker.Some? && !luck.looks.markerUnreadAgain))
    requires !later.looks.markerUnread && !later.looks.markerUnreadAgain
    ensures var (d', out) := Boot(d, cfg, env, luck);
            && d'.marker == Some(out.keyId)
            && (d.marker.Some? && !luck.looks.markerUnreadAgain ==> out.keyId == d.marker.value)
            && (!TriesRecovery(d', cfg', later) ==>
                  Boot(d'.(keyFile := None), cfg', env', later) == (d'.(keyFile := None), RecoveryPending(out.keyId)))
            && var next := Boot(d', cfg', env', later).1;
               next.Open? || next.RecoveryPending? ==> next.keyId == out.keyId
  {
    hide LoadOrCreate, Recover;
    TriedKeepsMarker(d, cfg, env, luck);
    LoadKeepsMarker(d, cfg, env, luck.second);
    LoadKeepsMarker(Tried(d, cfg, env, luck).0, cfg, env, luck.second);
    var d' := Boot(d, cfg, env, luck).0;
    TriedKeepsMarker(d', cfg', env', later);
    LoadKeepsMarker(d', cfg', env', later.second);
    LoadKeepsMarker(Tried(d', cfg', env', later).0, cfg', env', later.second);
  }

  /** RestoreFromEscrow installs the leading key or changes nothing, whatever bytes it is given - as long
      as nothing but this key has been wrapped. */
  lemma RestoreKeepsKey(d: Disk, escrow: Text, pass: Text, cfg: Config, env: Env, t: Load, key: Text)
    requires SaneEnv(env) && SaneLoad(t) && LeadsTo(d, key)
    ensures var (d', ok) := RestoreFromEscrow(d, escrow, pass, cfg, env, t);
            && LeadsTo(d', key) && d'.marker == d.marker && d'.recovery == d.recovery
            && (if ok then d'.keyFile.Some? else d' == d)
  {
    hide Normal;
    var p := PassphraseProtector(pass);
    if IsEscrow(escrow) && Unwrap(p, d.table, Decode(escrow).blob).Some? && NewProtector(cfg, env).Some? {
      UnwrapsOnlyWrapped(p, d.table, Decode(escrow).blob);
      InstallIsSafe(d, cfg, env, key, t.draw);
    }
  }

  /** Whatever has been wrapped, a restore installs the key that the escrow opens to, unchecked: so it
      keeps an installation's key if and only if the escrow opens to that. */
  lemma RestoreKeepsKeyExactly(d: Disk, escrow: Text, pass: Text, cfg: Config, env: Env, t: Load, luck: Luck, key: Text)
    requires SaneEnv(env) && SaneLoad(t) && !luck.looks.keyUnseen && !luck.second.readFails
    requires RestoreFromEscrow(d, escrow, pass, cfg, env, t).1
    ensures var out := Boot(RestoreFromEscrow(d, escrow, pass, cfg, env, t).0, cfg, env, luck).1;
            out.Open? && (out.ks.key == key <==>
              Unwrap(PassphraseProtector(pass), d.table, Decode(escrow).blob) == Some(key))
  {
    hide Normal, NewProtector, Encode, WrapTable;
    var p, got := NewProtector(cfg, env).value, Unwrap(PassphraseProtector(pass), d.table, Decode(escrow).blob).value;
    OpenedHasKeySize(PassphraseProtector(pass), d.table, Decode(escrow).blob);
    InstalledOpens(d, cfg, env, got, t.draw);
    hide Unwrap, KeyIn, Install;
  }

  /** An installed key file opens to the key it was made of. */
  lemma InstalledOpens(d: Disk, cfg: Config, env: Env, key: Text, draw: Draw)
    requires SaneEnv(env) && NewProtector(cfg, env).Some? && GoodDraw(draw) && |key| == KEY_SIZE
    ensures var p := NewProtector(cfg, env).value;
            var d' := Install(d, p, key, draw);
            KeyIn(d'.keyFile.value, d'.table, p, cfg, env) == Some((p, key))
  {
    hide Normal;
    var p := NewProtector(cfg, env).value;
    NewProtectorNames(cfg, env);
    hide Encode, WrapTable, Unwrap, NewProtector;
    DecodeEncode(NameOf(p), WrapBlob(p, key, draw));
    UnwrapWrap(p, d.table, key, draw);
  }

  lemma OpenedHasKeySize(p: Protector, table: Table, blob: Text)
    requires !p.FileProtector? && Unwrap(p, table, blob).Some?
    ensures |Unwrap(p, table, blob).value| == KEY_SIZE
  {
  }

  /** The assumption on escrows is needed: another installation's escrow, with its passphrase, replaces
      the key. */
  lemma ForeignEscrowReplacesKey(d: Disk, foreign: Text, pass: Text, draw: Draw, cfg: Config, env: Env, t: Load, luck: Luck)
    requires SaneEnv(env) && SaneLoad(t) && GoodDraw(draw) && |foreign| == KEY_SIZE
    requires NewProtector(cfg, env).Some? && !t.writeFails && !luck.looks.keyUnseen && !luck.second.readFails
    ensures var p := PassphraseProtector(pass);
            var there := d.(table := WrapTable(p, d.table, foreign, draw));
            var (d', ok) := RestoreFromEscrow(there, Encode(PASSPHRASE_NAME, WrapBlob(p, foreign, draw)), pass, cfg, env, t);
            && ok && Boot(d', cfg, env, luck).1.Open? && Boot(d', cfg, env, luck).1.ks.key == foreign
  {
    hide Normal;
    var p := PassphraseProtector(pass);
    var escrow, there := Encode(PASSPHRASE_NAME, WrapBlob(p, foreign, draw)), d.(table := WrapTable(p, d.table, foreign, draw));
    DecodeEncode(PASSPHRASE_NAME, WrapBlob(p, foreign, draw));
    UnwrapWrap(p, d.table, foreign, draw);
    hide Encode, WrapTable, Unwrap, NewProtector, Boot;
    RestoreKeepsKeyExactly(there, escrow, pass, cfg, env, t, luck, foreign);
  }

  /** A recovery likewise: it opens the key that the escrow at the recovery path opens to. */
  lemma RecoveryKeepsKeyExactly(d: Disk, cfg: Config, env: Env, luck: Luck, key: Text)
    requires SaneEnv(env) && d.recovery.Some? && Recover(d, cfg, env, luck).1.Some?
    ensures IsEscrow(d.recovery.value) && cfg.pass.Some?
    ensures Recover(d, cfg, env, luck).1.value.key == key <==>
              Unwrap(PassphraseProtector(cfg.pass.value), d.table, Decode(d.recovery.value).blob) == Some(key)
  {
    hide Normal, Unwrap, Decode;
    NamesAreNormal();
  }

  /** ExportEscrow: a framed passphrase wrap of the open key. */
  function ExportEscrow(d: Disk, ks: KeyStore, pass: Text, draw: Draw): (Disk, Text) {
    var p := PassphraseProtector(pass);
    (d.(table := WrapTable(p, d.table, ks.key, draw)), Encode(PASSPHRASE_NAME, WrapBlob(p, ks.key, draw)))
  }

  /** An exported escrow and its passphrase bring the key back, on any host and under any protector
      the host can build: the restored key file opens to it again. */
  lemma EscrowRestores(d: Disk, ks: KeyStore, pass: Text, draw: Draw, cfg: Config, env: Env, t: Load)
    requires GoodDraw(draw) && SaneEnv(env) && SaneLoad(t) && |ks.key| == KEY_SIZE
    requires NewProtector(cfg, env).Some? && !t.writeFails
    ensures var (d1, escrow) := ExportEscrow(d, ks, pass, draw);
            var (d2, ok) := RestoreFromEscrow(d1.(keyFile := None), escrow, pass, cfg, env, t);
            ok && forall luck: Luck | !luck.second.readFails ::
              !luck.looks.keyUnseen ==> Boot(d2, cfg, env, luck).1.Open? && Boot(d2, cfg, env, luck).1.ks.key == ks.key
  {
    hide Normal;
    hide Encode, WrapTable, Unwrap;
    var p := PassphraseProtector(pass);
    DecodeEncode(PASSPHRASE_NAME, WrapBlob(p, ks.key, draw));
    UnwrapWrap(p, d.table, ks.key, draw);
    var desired := NewProtector(cfg, env).value;
    NewProtectorNames(cfg, env);
    DecodeEncode(NameOf(desired), WrapBlob(desired, ks.key, t.draw));
    UnwrapWrap(desired, ExportEscrow(d, ks, pass, draw).0.table, ks.key, t.draw);
  }

  /** A failed recovery leaves the recovery file and the marker as they are, and no key file, unless the copy
      has stopped half-way or the copied escrow cannot be removed. */
  lemma FailedRecovery(d: Disk, cfg: Config, env: Env, luck: Luck)
    requires SaneEnv(env) && d.recovery.Some? && d.keyFile.None? && Recover(d, cfg, env, luck).1.None?
    ensures var d' := Recover(d, cfg, env, luck).0;
            && d'.recovery == d.recovery && d'.marker == d.marker && d'.table == d.table
            && (d'.keyFile.Some? <==> LeavesKeyFile(d, luck))
            && (d'.keyFile.Some? ==> d'.keyFile.value <= d.recovery.value)
            && (d'.keyFile.Some? && luck.copy.Copied? ==> d'.keyFile == d.recovery)
  {
    LoadSucceedsExactly(d.(keyFile := d.recovery), cfg, env, luck.first);
    hide LoadOrCreate, IsEscrow;
  }

  predicate LeavesKeyFile(d: Disk, luck: Luck)
    requires d.recovery.Some?
  {
    && !luck.escrowReadFails && IsEscrow(d.recovery.value)
    && (luck.copy.StoppedAt? || (luck.copy.Copied? && luck.removeFails))
  }

  /** Nothing goes wrong on the way from the recovery file to the key file. */
  predicate GoesWell(luck: Luck) {
    && !luck.looks.recoveryUnseen && !luck.looks.recoveryUnseenAgain && !luck.escrowReadFails
    && luck.copy.Copied? && !luck.first.readFails && !luck.first.writeFails
  }

  /** An exported escrow at the recovery path brings the key back at the next start that has its passphrase,
      on any host and under any protector, without asking; and once it has been renamed it is not taken a
      second time: if the key file is then lost, the gate asks. */
  lemma EscrowRecovers(d: Disk, ks: KeyStore, pass: Text, draw: Draw, cfg: Config, env: Env, luck: Luck, later: Luck)
    requires GoodDraw(draw) && SaneEnv(env) && SaneLuck(luck) && |ks.key| == KEY_SIZE
    requires cfg.recovery && cfg.pass == Some(pass) && NewProtector(cfg, env).Some? && GoesWell(luck)
    ensures var (d1, escrow) := ExportEscrow(d, ks, pass, draw);
            var (d2, out) := Boot(d1.(keyFile := None, recovery := Some(escrow)), cfg, env, luck);
            && out.Open? && out.mode.Restored? && out.ks.key == ks.key && d2.keyFile.Some?
            && d2.recovery == (if luck.renameFails then Some(escrow) else None)
            && (!luck.renameFails && d2.marker.Some? && !later.looks.markerUnread ==>
                  Boot(d2.(keyFile := None), cfg, env, later).1.RecoveryPending?)
  {
    var (d1, escrow) := ExportEscrow(d, ks, pass, draw);
    var there := d1.(keyFile := None, recovery := Some(escrow));
    EscrowLoads(d, ks, pass, draw, cfg, env, luck.first);
    hide LoadOrCreate, ExportEscrow, NewProtector;
    var d2 := Boot(there, cfg, env, luck).0;
    if d2.recovery.None? && d2.marker.Some? && !later.looks.markerUnread { hide Boot; GateAsks(d2, cfg, env, later); }
  }

  lemma GateAsks(d: Disk, cfg: Config, env: Env, luck: Luck)
    requires d.recovery.None? && d.marker.Some? && !luck.looks.markerUnread
    ensures Boot(d.(keyFile := None), cfg, env, luck).1.RecoveryPending?
  {
  }

  /** The copied escrow is loaded. */
  lemma EscrowLoads(d: Disk, ks: KeyStore, pass: Text, draw: Draw, cfg: Config, env: Env, t: Load)
    requires GoodDraw(draw) && SaneEnv(env) && SaneLoad(t) && |ks.key| == KEY_SIZE
    requires cfg.pass == Some(pass) && NewProtector(cfg, env).Some? && !t.readFails && !t.writeFails
    ensures var (d1, escrow) := ExportEscrow(d, ks, pass, draw);
            var there := d1.(keyFile := Some(escrow), recovery := Some(escrow));
            var (d2, got) := LoadOrCreate(there, cfg, env, t);
            && IsEscrow(escrow) && got.Some? && got.value.key == ks.key && d2.keyFile.Some?
            && d2.recovery == Some(escrow) && d2.marker == d1.marker
  {
    var (d1, escrow) := ExportEscrow(d, ks, pass, draw);
    var there := d1.(keyFile := Some(escrow), recovery := Some(escrow));
    EscrowOpens(d, ks, pass, draw, cfg, env);
    LoadSucceedsExactly(there, cfg, env, t);
    LoadSettles(there, cfg, env, t, t);
    LoadKeepsRecovery(there, cfg, env, t);
    hide LoadOrCreate, KeyIn, Encode, Decode, NewProtector, WrapTable;
  }

  lemma LoadKeepsRecovery(d: Disk, cfg: Config, env: Env, t: Load)
    ensures var d' := LoadOrCreate(d, cfg, env, t).0; d'.recovery == d.recovery && d'.marker == d.marker
  {
    hide NewProtector, KeyIn, KeyFileBytes, WrapTable;
  }

  lemma EscrowOpens(d: Disk, ks: KeyStore, pass: Text, draw: Draw, cfg: Config, env: Env)
    requires GoodDraw(draw) && SaneEnv(env) && |ks.key| == KEY_SIZE && cfg.pass == Some(pass) && NewProtector(cfg, env).Some?
    ensures var (d1, escrow) := ExportEscrow(d, ks, pass, draw);
            && IsEscrow(escrow)
            && KeyIn(escrow, d1.table, NewProtector(cfg, env).value, cfg, env) == Some((PassphraseProtector(pass), ks.key))
  {
    hide Normal, Encode, Decode, Unwrap, WrapTable;
    NamesAreNormal();
    var p := PassphraseProtector(pass);
    DecodeEncode(PASSPHRASE_NAME, WrapBlob(p, ks.key, draw));
    UnwrapWrap(p, d.table, ks.key, draw);
    OwnName(cfg, env);
  }

  // ---- Whole histories of an installation ----

  datatype Action =
    | Start(cfg: Config, env: Env, luck: Luck)
    | Restore(escrow: Text, pass: Text, cfg: Config, env: Env, t: Load)
    | Export(ks: KeyStore, pass: Text, draw: Draw)
    | PlaceRecovery(data: Option<Text>)        // anything may be put at the recovery path, or removed
    | LoseKeyFile

  /** `key` is the key of the first successful start. */
  datatype Installation = Installation(disk: Disk, key: Option<Text>)

  const FRESH_HOST := Installation(Disk(None, None, None, map[]), None)

  /** What is assumed of an action: a start overlooks nothing once there is a key, and no copy of an
      escrow stops after 32 bytes; exports are of the open key; and the key file is not lost between the
      first start and the marker's being written.  That nothing else is ever wrapped is assumed by there
      being no action for it. */
  predicate Allowed(s: Installation, a: Action) {
    match a
    case Start(cfg, env, luck) =>
      && SaneEnv(env) && SaneLuck(luck) && HarmlessCopy(luck)
      && (s.key.Some? ==> !Overlooks(s.disk, cfg, env, luck))
    case Restore(_, _, _, env, t) => SaneEnv(env) && SaneLoad(t)
    case Export(ks, _, draw) => s.key == Some(ks.key)
    case PlaceRecovery(_) => true
    case LoseKeyFile => s.key.None? || s.disk.marker.Some?
  }

  function Next(s: Installation, a: Action): (Installation, Option<Text>) {
    match a
    case Start(cfg, env, luck) =>
      var (d, out) := Boot(s.disk, cfg, env, luck);
      if out.Open? then (Installation(d, if s.key.Some? then s.key else Some(out.ks.key)), Some(out.ks.key))
      else (s.(disk := d), None)
    case Restore(escrow, pass, cfg, env, t) =>
      (s.(disk := RestoreFromEscrow(s.disk, escrow, pass, cfg, env, t).0), None)
    case Export(ks, pass, draw) => (s.(disk := ExportEscrow(s.disk, ks, pass, draw).0), None)
    case PlaceRecovery(data) => (s.(disk := s.disk.(recovery := data)), None)
    case LoseKeyFile => (s.(disk := s.disk.(keyFile := None)), None)
  }

  /** Before the first success nothing has been wrapped, and what may lie at the key path opens to
      nothing; afterwards the disk leads to the installation's key and remembers that there is one. */
  ghost predicate Inv(s: Installation) {
    if s.key.None? then NoKeyYet(s.disk) && s.disk.marker.None?
    else LeadsTo(s.disk, s.key.value) && (s.disk.keyFile.Some? || s.disk.marker.Some?)
  }

  predicate NoKeyYet(d: Disk) {
    d.table == map[] && (d.keyFile.Some? ==> NeverBare(d.keyFile.value))
  }

  /** A key file that opens to nothing is refused, not replaced. */
  lemma UnusableFileRefused(d: Disk, cfg: Config, env: Env, t: Load)
    requires SaneEnv(env) && NoKeyYet(d) && d.keyFile.Some?
    ensures LoadOrCreate(d, cfg, env, t) == (d, None)
  {
    hide Normal;
    NamesAreNormal();
    if NewProtector(cfg, env).Some? {
      NewProtectorNames(cfg, env);
      var src := SourceOf(d.keyFile.value, NewProtector(cfg, env).value, cfg, env);
      if src.Some? {
        var (p, blob) := src.value;
        assert !p.FileProtector?;
        if Unwrap(p, d.table, blob).Some? { UnwrapsOnlyWrapped(p, d.table, blob); }
      }
    }
  }

  lemma FirstLoad(d: Disk, cfg: Config, env: Env, t: Load)
    requires SaneEnv(env) && SaneLoad(t) && NoKeyYet(d)
    ensures var (d', ks) := LoadOrCreate(d, cfg, env, t);
            d'.marker == d.marker
            && (if ks.Some? then LeadsTo(d', ks.value.key) && d'.keyFile.Some? else d' == d)
  {
    hide Normal;
    if d.keyFile.Some? {
      UnusableFileRefused(d, cfg, env, t);
    } else if NewProtector(cfg, env).Some? {
      InstallIsSafe(d, cfg, env, t.minted, t.draw);
    }
  }

  lemma FirstRecover(d: Disk, cfg: Config, env: Env, luck: Luck)
    requires SaneEnv(env) && SaneLuck(luck) && HarmlessCopy(luck)
    requires NoKeyYet(d) && d.recovery.Some?
    ensures var (d', ks) := Recover(d, cfg, env, luck);
            ks.None? && NoKeyYet(d') && d'.marker == d.marker
  {
    hide Normal;
    NamesAreNormal();
    var data := d.recovery.value;
    if IsEscrow(data) {
      if luck.copy.StoppedAt? {
        PartOfEscrow(data, if luck.copy.n < |data| then luck.copy.n else |data|);
        assert data[..|data|] == data;
      }
      if Decode(data).Framed? { FirstLoad(d.(keyFile := Some(data)), cfg, env, luck.first); }
      UnusableFileRefused(d.(keyFile := Some(data)), cfg, env, luck.first);
    }
  }

  lemma FirstTried(d: Disk, cfg: Config, env: Env, luck: Luck)
    requires SaneEnv(env) && SaneLuck(luck) && HarmlessCopy(luck) && NoKeyYet(d)
    ensures var (d', ks) := Tried(d, cfg, env, luck);
            d'.marker == d.marker
            && (if ks.Some? then LeadsTo(d', ks.value.key) && d'.keyFile.Some? else NoKeyYet(d'))
  {
    hide LoadOrCreate, Recover, LeadsTo;
    if TriesRecovery(d, cfg, luck) {
      if JustLoads(d, cfg, luck) { FirstLoad(d, cfg, env, luck.first); } else { FirstRecover(d, cfg, env, luck); }
    }
  }

  /** The first start that succeeds makes the key that leads from then on. */
  lemma FirstBoot(d: Disk, cfg: Config, env: Env, luck: Luck)
    requires SaneEnv(env) && SaneLuck(luck) && HarmlessCopy(luck) && NoKeyYet(d) && d.marker.None?
    ensures var (d', out) := Boot(d, cfg, env, luck);
            if out.Open? then LeadsTo(d', out.ks.key) && d'.keyFile.Some?
            else NoKeyYet(d') && d'.marker.None?
  {
    hide LoadOrCreate, Tried, SafeFile;
    if SeesKey(d, luck) {
      FirstLoad(d, cfg, env, luck.second);
    } else {
      FirstTried(d, cfg, env, luck);
      var (d1, ks) := Tried(d, cfg, env, luck);
      if ks.None? { FirstLoad(d1, cfg, env, luck.second); }
    }
  }

  lemma InvStep(s: Installation, a: Action)
    requires Inv(s) && Allowed(s, a)
    ensures Inv(Next(s, a).0)
    ensures s.key.Some? ==> Next(s, a).0.key == s.key
    ensures Next(s, a).1.Some? ==> Next(s, a).1 == Next(s, a).0.key
  {
    hide Normal;
    match a
    case Start(cfg, env, luck) =>
      if s.key.Some? {
        BootKeepsKey(s.disk, cfg, env, luck, s.key.value);
      } else {
        FirstBoot(s.disk, cfg, env, luck);
      }
    case Restore(escrow, pass, cfg, env, t) =>
      if s.key.Some? {
        RestoreKeepsKey(s.disk, escrow, pass, cfg, env, t, s.key.value);
      } else if IsEscrow(escrow) && Unwrap(PassphraseProtector(pass), s.disk.table, Decode(escrow).blob).Some? {
        UnwrapsOnlyWrapped(PassphraseProtector(pass), s.disk.table, Decode(escrow).blob);
      }
    case Export(_, _, _) =>
    case PlaceRecovery(_) =>
    case LoseKeyFile =>
  }

  ghost predicate AllAllowed(s: Installation, acts: seq<Action>)
    decreases |acts|
  {
    acts == [] || (Allowed(s, acts[0]) && AllAllowed(Next(s, acts[0]).0, acts[1..]))
  }

  /** The keys of the successful starts of a history, in order. */
  ghost function KeysOpened(s: Installation, acts: seq<Action>): seq<Text>
    decreases |acts|
  {
    if acts == [] then []
    else
      var (s', key) := Next(s, acts[0]);
      (if key.Some? then [key.value] else []) + KeysOpened(s', acts[1..])
  }

  lemma {:induction false} SameKeyFrom(s: Installation, acts: seq<Action>, key: Text)
    requires Inv(s) && s.key == Some(key) && AllAllowed(s, acts)
    ensures forall k | k in KeysOpened(s, acts) :: k == key
    decreases |acts|
  {
    if acts == [] {
    } else {
      InvStep(s, acts[0]);
      SameKeyFrom(Next(s, acts[0]).0, acts[1..], key);
    }
  }

  lemma {:induction false} SameKeyEver(s: Installation, acts: seq<Action>)
    requires Inv(s) && s.key.None? && AllAllowed(s, acts)
    ensures forall k1, k2 | k1 in KeysOpened(s, acts) && k2 in KeysOpened(s, acts) :: k1 == k2
    decreases |acts|
  {
    if acts == [] {
    } else {
      InvStep(s, acts[0]);
      var s' := Next(s, acts[0]).0;
      if s'.key.Some? {
        SameKeyFrom(s', acts[1..], s'.key.value);
      } else {
        SameKeyEver(s', acts[1..]);
      }
    }
  }

  /** Key continuity: over every history of a fresh host - boots under any protector settings and on
      any machines, failing reads, writes and copies, key-file losses, any bytes at the recovery path
      or offered to the gate - all successful starts open one and the same master key.  What is assumed
      is in `Allowed`: no start overlooks a key or its marker, no copy stops after 32 bytes, no key file
      is lost before its marker is there, and nothing but this installation's key is ever wrapped. */
  lemma KeyContinuity(acts: seq<Action>)
    requires AllAllowed(FRESH_HOST, acts)
    ensures forall k1, k2 | k1 in KeysOpened(FRESH_HOST, acts) && k2 in KeysOpened(FRESH_HOST, acts) :: k1 == k2
  {
    SameKeyEver(FRESH_HOST, acts);
  }

  /** The assumption on losing the key file is needed: wherever a key file is lost while no marker
      stands, the next start that has nothing to recover from mints whatever key chance draws. */
  lemma LossBeforeMarkerForgets(d: Disk, cfg: Config, env: Env, luck: Luck)
    requires d.marker.None? && !cfg.recovery && NewProtector(cfg, env).Some? && !luck.second.writeFails
    ensures var out := Boot(d.(keyFile := None), cfg, env, luck).1;
            out.Open? && out.mode.Created? && out.ks.key == luck.second.minted
  {
    hide Normal;
  }

  /** The assumption on reads is needed: a start, the loss of the key file while the marker stands, and
      a start that cannot read the marker open two keys. */
  lemma UnreadMarkerBreaksContinuity(cfg: Config, env: Env, first: Luck, second: Luck)
    requires SaneEnv(env) && SaneLuck(first) && HarmlessCopy(first)
    requires NewProtector(cfg, env).Some? && !cfg.recovery && second.looks.markerUnread
    requires !first.second.writeFails && !first.markerFails && !second.second.writeFails
    ensures var start := Start(cfg, env, first);
            var started := Next(FRESH_HOST, start).0;
            && AllAllowed(FRESH_HOST, [start, LoseKeyFile])
            && KeysOpened(FRESH_HOST, [start, LoseKeyFile, Start(cfg, env, second)])
               == [first.second.minted, second.second.minted]
  {
    StartsAfresh(cfg, env, first);
    var start, third := Start(cfg, env, first), Start(cfg, env, second);
    var s1 := Next(FRESH_HOST, start).0;
    var s2 := Next(s1, LoseKeyFile).0;
    ForgetfulStart(s1, cfg, env, second);
    hide Next, Allowed, NewProtector;
    OneMore(s2, third, []);
    OneMore(s1, LoseKeyFile, [third]);
    OneMore(FRESH_HOST, start, [LoseKeyFile, third]);
    OneMore(s1, LoseKeyFile, []);
    OneMore(FRESH_HOST, start, [LoseKeyFile]);
    assert [LoseKeyFile] + [third] == [LoseKeyFile, third] && [start] + [LoseKeyFile, third] == [start, LoseKeyFile, third];
    assert [start] + [LoseKeyFile] == [start, LoseKeyFile] && [third] + [] == [third] && [LoseKeyFile] + [] == [LoseKeyFile];
  }

  lemma OneMore(s: Installation, a: Action, acts: seq<Action>)
    ensures AllAllowed(s, [a] + acts) <==> Allowed(s, a) && AllAllowed(Next(s, a).0, acts)
    ensures var (s', key) := Next(s, a);
            KeysOpened(s, [a] + acts) == (if key.Some? then [key.value] else []) + KeysOpened(s', acts)
  {
    hide Next, Allowed;
    assert ([a] + acts)[1..] == acts;
  }

  /** The key file of an installation with a marker is lost, and the next start does not read the marker. */
  lemma ForgetfulStart(s: Installation, cfg: Config, env: Env, luck: Luck)
    requires s.disk.marker.Some? && luck.looks.markerUnread && !cfg.recovery
    requires NewProtector(cfg, env).Some? && !luck.second.writeFails
    ensures Allowed(s, LoseKeyFile) && Next(s, LoseKeyFile).1 == None
    ensures Next(Next(s, LoseKeyFile).0, Start(cfg, env, luck)).1 == Some(luck.second.minted)
  {
    UnreadMarkerForgets(s.disk.(keyFile := None), cfg, env, luck);
    hide Boot;
  }

  lemma StartsAfresh(cfg: Config, env: Env, luck: Luck)
    requires SaneEnv(env) && SaneLuck(luck) && HarmlessCopy(luck)
    requires NewProtector(cfg, env).Some? && !luck.second.writeFails && !luck.markerFails
    requires !cfg.recovery
    ensures Allowed(FRESH_HOST, Start(cfg, env, luck))
    ensures var (s, key) := Next(FRESH_HOST, Start(cfg, env, luck));
            key == Some(luck.second.minted) && s.key == key && s.disk.marker.Some?
  {
    hide NewProtector, LoadOrCreate;
    LoadMints(FRESH_HOST.disk, cfg, env, luck.second);
  }

  /** The assumption on copies is needed: if the copy of an escrow stops after exactly 32 bytes, the
      next boot under the file protector takes those bytes for the master key. */
  lemma ShortCopyBecomesKey(d: Disk, cfg: Config, env: Env, luck: Luck, later: Luck)
    requires d.keyFile.None? && d.marker.Some? && d.recovery.Some? && IsEscrow(d.recovery.value)
    requires |d.recovery.value| >= KEY_SIZE && luck.copy == StoppedAt(KEY_SIZE) && !luck.escrowReadFails
    requires cfg.recovery && cfg.pass.Some? && Normal(cfg.name) == FILE_NAME && !later.second.readFails
    requires !luck.looks.recoveryUnseen && !luck.looks.recoveryUnseenAgain && !luck.looks.markerUnread
    requires !later.looks.keyUnseen
    ensures var (d1, out1) := Boot(d, cfg, env, luck);
            var out2 := Boot(d1, cfg, env, later).1;
            out1.RecoveryPending? && out2.Open? && out2.ks.key == d.recovery.value[..KEY_SIZE]
  {
    hide Normal;
    assert d.recovery.value[..|d.recovery.value|] == d.recovery.value;
  }
}
