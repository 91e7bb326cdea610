/** infra/atrest/keystore.go and infra/atrest/startup.go: the file operations of a boot, step by
    step, against KeyLifecycle.  Failing operations are announced by `luck`. */
module KeyStore {
  import opened Bytes
  import opened Results
  import opened KeyFile
  import opened KeyLifecycle

  class Host {
    var keyFile: Option<Text>
    var marker: Option<nat>
    var recovery: Option<Text>
    /** The memory of the ideal ciphers. */
    var table: Table

    function Disk(): KeyLifecycle.Disk reads this {
      KeyLifecycle.Disk(keyFile, marker, recovery, table)
    }

    constructor ()
      ensures Disk() == FRESH_HOST.disk
    {
      keyFile, marker, recovery, table := None, None, None, map[];
    }

    /** fileExists: a look that fails finds nothing. */
    static predicate FileExists(file: Option<Text>, unseen: bool) { file.Some? && !unseen }

    method Wrap(p: Protector, key: Text, draw: Draw) returns (blob: Text)
      modifies this`table
      ensures blob == WrapBlob(p, key, draw) && table == WrapTable(p, old(table), key, draw)
    {
      blob := WrapBlob(p, key, draw);
      table := WrapTable(p, table, key, draw);
    }

    /** Atomic: the data goes to a temporary file that is renamed into place, or nowhere. */
    method WriteKeyFile(p: Protector, key: Text, t: Load) returns (ok: bool)
      modifies this`keyFile, this`table
      ensures ok <==> !t.writeFails
      ensures Disk() == if ok then Install(old(Disk()), p, key, t.draw) else old(Disk())
    {
      if t.writeFails { return false; }
      var blob := Wrap(p, key, t.draw);
      var data;
      if NameOf(p) == FILE_NAME {
        data := blob;
      } else {
        data := Encode(NameOf(p), blob);
      }
      keyFile := Some(data);
      ok := true;
    }

    method CreateKey(p: Protector, t: Load) returns (ks: Option<KeyLifecycle.KeyStore>)
      modifies this`keyFile, this`table
      ensures ks == if t.writeFails then None else Some(KeyLifecycle.KeyStore(t.minted, NameOf(p)))
      ensures Disk() == if t.writeFails then old(Disk()) else Install(old(Disk()), p, t.minted, t.draw)
    {
      var ok := WriteKeyFile(p, t.minted, t);
      ks := if ok then Some(KeyLifecycle.KeyStore(t.minted, NameOf(p))) else None;
    }

    method LoadOrCreateWithConfig(cfg: Config, env: Env, t: Load) returns (ks: Option<KeyLifecycle.KeyStore>)
      modifies this`keyFile, this`table
      ensures (Disk(), ks) == LoadOrCreate(old(Disk()), cfg, env, t)
    {
      hide NewProtector, Decode, Unwrap, WrapTable, WrapBlob;
      var desired := NewProtector(cfg, env);
      if desired.None? { return None; }
      if keyFile.None? {
        ks := CreateKey(desired.value, t);
        return;
      }
      if t.readFails { return None; }
      var decoded := Decode(keyFile.value);
      if decoded.Corrupt? { return None; }
      var source, blob := desired.value, if decoded.Raw? then decoded.key else decoded.blob;
      if decoded.Raw? || decoded.name == FILE_NAME {
        source := FileProtector;
      } else if decoded.name != NameOf(desired.value) {
        var src := NewProtector(cfg.(name := decoded.name), env);
        if src.None? { return None; }
        source := src.value;
      }
      var key := Unwrap(source, table, blob);
      if key.None? || |key.value| != KEY_SIZE { return None; }
      if NameOf(source) != NameOf(desired.value) {
        var ok := WriteKeyFile(desired.value, key.value, t);
        if !ok { return None; }
      }
      ks := Some(KeyLifecycle.KeyStore(key.value, NameOf(desired.value)));
    }

    method LoadOrCreateWithRecovery(cfg: Config, env: Env, luck: Luck) returns (ks: Option<KeyLifecycle.KeyStore>)
      modifies this`keyFile, this`table, this`recovery
      ensures (Disk(), ks) == LoadOrRecover(old(Disk()), cfg, env, luck)
    {
      hide LoadOrCreate;
      if !cfg.recovery || FileExists(keyFile, luck.looks.keyUnseenAgain)
         || !FileExists(recovery, luck.looks.recoveryUnseenAgain) {
        ks := LoadOrCreateWithConfig(cfg, env, luck.first);
        return;
      }
      if luck.escrowReadFails { return None; }
      var data := recovery.value;
      // Checked before the key path is touched.
      var decoded := Decode(data);
      if !decoded.Framed? || decoded.name != PASSPHRASE_NAME { return None; }
      match luck.copy {
        case NotStarted => return None;
        case StoppedAt(n) =>
          keyFile := Some(if n < |data| then data[..n] else data);
          return None;
        case Copied =>
          keyFile := Some(data);
      }
      ks := LoadOrCreateWithConfig(cfg, env, luck.first);
      if ks.None? {
        if !luck.removeFails { keyFile := None; }
        return;
      }
      if !luck.renameFails { recovery := None; }
    }

    method EnsureMarker(luck: Luck) returns (keyId: nat)
      modifies this`marker
      ensures Disk() == KeyLifecycle.EnsureMarker(old(Disk()), luck) && keyId == KeyIdOf(old(Disk()), luck)
    {
      if marker.Some? && !luck.looks.markerUnreadAgain { return marker.value; }
      if !luck.markerFails { marker := Some(luck.newId); }
      keyId := luck.newId;
    }

    /** The boot, and with it what the boot promises about any disk it finds. */
    method OpenForStartup(cfg: Config, env: Env, luck: Luck) returns (out: Outcome)
      modifies this
      ensures (Disk(), out) == Boot(old(Disk()), cfg, env, luck)
      ensures out.Open? && out.mode.Created? ==> !SeesKey(old(Disk()), luck) && !SeesMarker(old(Disk()), luck)
      ensures out.RecoveryPending? ==> !SeesKey(old(Disk()), luck) && old(marker) == Some(out.keyId)
    {
      hide LoadOrCreate, Recover;
      CreatedExactly(Disk(), cfg, env, luck);
      TriedKeepsMarker(Disk(), cfg, env, luck);
      if FileExists(keyFile, luck.looks.keyUnseen) {
        var ks := LoadOrCreateWithConfig(cfg, env, luck.second);
        if ks.None? { return Failed; }
        var id := EnsureMarker(luck);
        return Open(Loaded, ks.value, id);
      }
      if cfg.recovery && FileExists(recovery, luck.looks.recoveryUnseen) && cfg.pass.Some? {
        var ks := LoadOrCreateWithRecovery(cfg, env, luck);
        if ks.Some? {
          var id := EnsureMarker(luck);
          return Open(Restored, ks.value, id);
        }
      }
      if marker.Some? && !luck.looks.markerUnread {
        return RecoveryPending(marker.value);
      }
      var ks := LoadOrCreateWithConfig(cfg, env, luck.second);
      if ks.None? { return Failed; }
      var id := EnsureMarker(luck);
      out := Open(Created, ks.value, id);
    }

    method RestoreFromEscrow(escrow: Text, pass: Text, cfg: Config, env: Env, t: Load) returns (ok: bool)
      modifies this`keyFile, this`table
      ensures (Disk(), ok) == KeyLifecycle.RestoreFromEscrow(old(Disk()), escrow, pass, cfg, env, t)
    {
      var decoded := Decode(escrow);
      if decoded.Corrupt? { return false; }
      if decoded.Raw? || decoded.name != PASSPHRASE_NAME { return false; }
      var key := Unwrap(PassphraseProtector(pass), table, decoded.blob);
      if key.None? { return false; }
      var desired := NewProtector(cfg, env);
      if desired.None? { return false; }
      ok := WriteKeyFile(desired.value, key.value, t);
    }

    method ExportEscrow(ks: KeyLifecycle.KeyStore, pass: Text, draw: Draw) returns (escrow: Text)
      modifies this`table
      ensures (Disk(), escrow) == KeyLifecycle.ExportEscrow(old(Disk()), ks, pass, draw)
    {
      var blob := Wrap(PassphraseProtector(pass), ks.key, draw);
      escrow := Encode(PASSPHRASE_NAME, blob);
    }
  }
}
