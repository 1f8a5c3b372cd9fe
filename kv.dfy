/**
 * The master's flat key/value store (master/kv.go with the methods of
 * master/kv_fsm_op.go): an in-memory index that changes only after the
 * command describing the change has been accepted by the replicated partition.
 */
module MasterKv {
  import opened Optional
  import opened Replication
  import opened GoStrings
  import opened KvMerge
  import opened KvFsm

  datatype KvError =
    | ParamError    // proto.ErrParamError
    | DuplicateKey  // proto.ErrDuplicateKey
    | KeyNotExists  // proto.ErrKeyNotExists
    | MarshalError  // RaftCmd.Marshal failed; the partition was not called
    | SubmitError   // the partition refused the command
    | SeekError     // the snapshot prefix scan failed

  /** The error `submit` returns for what became of a proposal: nil exactly when it was committed. */
  function SubmitErr(outcome: Outcome): (err: Option<KvError>)
    ensures err.None? <==> outcome.Committed?
    ensures outcome.EncodeFailed? ==> err == Some(MarshalError)
    ensures outcome.SubmitFailed? ==> err == Some(SubmitError)
  {
    match outcome
    case Committed => None
    case EncodeFailed => Some(MarshalError)
    case SubmitFailed => Some(SubmitError)
  }

  /** What the snapshot store's SeekForPrefix hands back. */
  datatype SeekResult = Found(entries: map<string, string>) | SeekFailed

  function Lookup(store: map<string, Stored>, key: string): Option<Stored> {
    if key in store then Some(store[key]) else None
  }

  /**
   * The store after the snapshot entries in `done` were copied over `before`:
   * a key is present when it was before or its prefixed form was copied, and
   * a copied entry wins.
   */
  ghost predicate LoadedFrom(prefix: string, before: map<string, Stored>, entries: map<string, string>,
                             done: set<string>, store: map<string, Stored>) {
    && done <= entries.Keys
    && (forall key :: key in store <==> key in before || prefix + key in done)
    && (forall key :: key in store ==>
          store[key] == if prefix + key in done then Str(entries[prefix + key]) else before[key])
  }

  /** Copying one more entry, under its key with the prefix stripped, keeps LoadedFrom. */
  lemma LoadStep(prefix: string, before: map<string, Stored>, entries: map<string, string>,
                 done: set<string>, store: map<string, Stored>, k: string)
    requires LoadedFrom(prefix, before, entries, done, store)
    requires k in entries && k !in done && HasPrefix(k, prefix)
    ensures LoadedFrom(prefix, before, entries, done + {k}, store[StripPrefix(prefix, k) := Str(entries[k])])
  {
    var key' := StripPrefix(prefix, k);
    forall key
      ensures prefix + key == k <==> key == key'
    {
      PrefixRoundTrip(prefix, key, k);
    }
  }

  class Kv {
    /** The reserved prefix of the store's keys in the snapshot (its value is defined outside these files). */
    const kvPrefix: string
    /** kvStore: the sync.Map from key to stored value. */
    var kvStore: map<string, Stored>
    /** The commands the replicated partition accepted from this store, in order. */
    var log: seq<RaftCmd>

    constructor (kvPrefix: string)
      ensures this.kvPrefix == kvPrefix && kvStore == map[] && log == []
    {
      this.kvPrefix := kvPrefix;
      kvStore := map[];
      log := [];
    }

    /** submit: marshal the command, then hand it to the partition; either step may fail. */
    method Submit(cmd: RaftCmd, outcome: Outcome) returns (err: Option<KvError>)
      modifies this`log
      ensures err == SubmitErr(outcome)
      ensures log == Commit(old(log), cmd, outcome)
    {
      match outcome
      case EncodeFailed =>
        err := Some(MarshalError);
      case SubmitFailed =>
        err := Some(SubmitError);
      case Committed =>
        log := log + [cmd];
        err := None;
    }

    /** syncPutKv: build the command for `key` (nil value as empty bytes) and submit it. */
    method SyncPutKv(op: KvOp, key: string, value: Option<string>, outcome: Outcome) returns (err: Option<KvError>)
      modifies this`log
      ensures err == SubmitErr(outcome)
      ensures log == Commit(old(log), PutCmd(kvPrefix, op, key, value), outcome)
    {
      var v := if value.None? then "" else value.value;
      err := Submit(RaftCmd(op, kvPrefix + key, v), outcome);
    }

    method SyncAddKv(key: string, value: string, outcome: Outcome) returns (err: Option<KvError>)
      modifies this`log
      ensures err == SubmitErr(outcome)
      ensures log == Commit(old(log), PutCmd(kvPrefix, OpSyncAddKv, key, Some(value)), outcome)
    {
      err := SyncPutKv(OpSyncAddKv, key, Some(value), outcome);
    }

    method SyncDelKv(key: string, outcome: Outcome) returns (err: Option<KvError>)
      modifies this`log
      ensures err == SubmitErr(outcome)
      ensures log == Commit(old(log), PutCmd(kvPrefix, OpSyncDelKv, key, None), outcome)
    {
      err := SyncPutKv(OpSyncDelKv, key, None, outcome);
    }

    method SyncUpdateKv(key: string, value: string, outcome: Outcome) returns (err: Option<KvError>)
      modifies this`log
      ensures err == SubmitErr(outcome)
      ensures log == Commit(old(log), PutCmd(kvPrefix, OpSyncUpdateKv, key, Some(value)), outcome)
    {
      err := SyncPutKv(OpSyncUpdateKv, key, Some(value), outcome);
    }

    /**
     * addKey: a missing or empty key or a missing value is refused before
     * anything else; an existing key is refused unchanged; otherwise the add
     * command is submitted and, only once it is committed, the value is stored
     * verbatim. The value given is returned on every path.
     */
    method AddKey(key: Option<string>, value: Option<string>, outcome: Outcome)
      returns (result: Option<string>, err: Option<KvError>)
      modifies this`kvStore, this`log
      ensures result == value
      ensures key.None? || key.value == "" || value.None? ==>
        err == Some(ParamError) && kvStore == old(kvStore) && log == old(log)
      ensures key.Some? && key.value != "" && value.Some? && key.value in old(kvStore) ==>
        err == Some(DuplicateKey) && kvStore == old(kvStore) && log == old(log)
      ensures key.Some? && key.value != "" && value.Some? && key.value !in old(kvStore) ==>
        && err == SubmitErr(outcome)
        && log == Commit(old(log), PutCmd(kvPrefix, OpSyncAddKv, key.value, value), outcome)
        && kvStore == if outcome.Committed? then old(kvStore)[key.value := Str(value.value)] else old(kvStore)
    {
      result := value;
      if key.None? || key.value == "" || value.None? {
        err := Some(ParamError);
        return;
      }
      if key.value in kvStore {
        err := Some(DuplicateKey);
        return;
      }
      err := SyncAddKv(key.value, value.value, outcome);
      if err.Some? {
        return;
      }
      kvStore := kvStore[key.value := Str(value.value)];
    }

    /**
     * delKey: an absent key fails with ErrKeyNotExists and submits nothing;
     * otherwise the delete command (empty value) is submitted and, once
     * committed, the key alone is removed.
     */
    method DelKey(key: string, outcome: Outcome) returns (err: Option<KvError>)
      modifies this`kvStore, this`log
      ensures key !in old(kvStore) ==> err == Some(KeyNotExists) && kvStore == old(kvStore) && log == old(log)
      ensures key in old(kvStore) ==>
        && err == SubmitErr(outcome)
        && log == Commit(old(log), PutCmd(kvPrefix, OpSyncDelKv, key, None), outcome)
        && kvStore == if outcome.Committed? then old(kvStore) - {key} else old(kvStore)
    {
      if key !in kvStore {
        err := Some(KeyNotExists);
        return;
      }
      err := SyncDelKv(key, outcome);
      if err.Some? {
        return;
      }
      kvStore := kvStore - {key};
    }

    /**
     * updateKey: the request is resolved by the merge codec against what the
     * key holds; a field update on an absent key fails with ErrKeyNotExists;
     * otherwise the computed value (not the request) is submitted and, once
     * committed, stored. On a refused submit only the plain overwrite still
     * returns the request.
     */
    method UpdateKey(key: Option<string>, value: Option<string>, outcome: Outcome)
      returns (result: Option<string>, err: Option<KvError>)
      requires key.Some? && key.value != "" && value.Some? ==> MergeDefined(Lookup(kvStore, key.value), value.value)
      modifies this`kvStore, this`log
      ensures key.None? || key.value == "" || value.None? ==>
        result.None? && err == Some(ParamError) && kvStore == old(kvStore) && log == old(log)
      ensures key.Some? && key.value != "" && value.Some? ==>
        var m := Merge(Lookup(old(kvStore), key.value), value.value);
        && (m.MissingKey? ==>
              result.None? && err == Some(KeyNotExists) && kvStore == old(kvStore) && log == old(log))
        && (m.Write? ==>
              && err == SubmitErr(outcome)
              && log == Commit(old(log), PutCmd(kvPrefix, OpSyncUpdateKv, key.value, Some(m.stored.text)), outcome)
              && kvStore == (if outcome.Committed? then old(kvStore)[key.value := m.stored] else old(kvStore))
              && result == (if outcome.Committed? || IsOverwrite(value.value) then Some(m.stored.text) else None))
    {
      if key.None? || key.value == "" || value.None? {
        return None, Some(ParamError);
      }
      var k, valStr := key.value, value.value;
      var oldValue := Lookup(kvStore, k);
      if IsDelta(valStr) {
        var newVal := DeltaText(TextOf(oldValue), valStr);
        err := SyncUpdateKv(k, newVal, outcome);
        if err.Some? {
          return None, err;
        }
        kvStore := kvStore[k := Str(newVal)];
        return Some(newVal), None;
      } else if IsField1(valStr) {
        if oldValue.Some? {
          var newVal := Field1Text(oldValue.value.text, valStr);
          err := SyncUpdateKv(k, newVal, outcome);
          if err.Some? {
            return None, err;
          }
          kvStore := kvStore[k := StrPtr(newVal)];
          return Some(newVal), None;
        } else {
          return None, Some(KeyNotExists);
        }
      } else if IsField2(valStr) {
        if oldValue.Some? {
          var newVal := Field2Text(oldValue.value.text, valStr);
          err := SyncUpdateKv(k, newVal, outcome);
          if err.Some? {
            return None, err;
          }
          kvStore := kvStore[k := StrPtr(newVal)];
          return Some(newVal), None;
        } else {
          return None, Some(KeyNotExists);
        }
      }
      result := value;
      err := SyncUpdateKv(k, valStr, outcome);
      if err.Some? {
        return;
      }
      kvStore := kvStore[k := Str(valStr)];
    }

    /**
     * getKey: the stored string, or ErrKeyNotExists; it reads only. The type
     * assertion `data.(string)` demands that the key does not hold a *string.
     */
    method GetKey(key: string) returns (value: Option<string>, err: Option<KvError>)
      requires key in kvStore ==> kvStore[key].Str?
      ensures key !in kvStore ==> value.None? && err == Some(KeyNotExists)
      ensures key in kvStore ==> value == Some(kvStore[key].text) && err.None?
    {
      if key !in kvStore {
        return None, Some(KeyNotExists);
      }
      var data := kvStore[key];
      return Some(data.text), None;
    }

    /**
     * loadKvStore: a failed prefix scan is returned and nothing is loaded;
     * otherwise every entry found under kvPrefix is stored under its key with
     * the prefix cut off, as a Go string, and no other key changes.
     */
    method LoadKvStore(seek: SeekResult) returns (err: Option<KvError>)
      requires seek.Found? ==> AllUnder(kvPrefix, seek.entries)
      modifies this`kvStore
      ensures seek.SeekFailed? ==> err == Some(SeekError) && kvStore == old(kvStore)
      ensures seek.Found? ==> err.None?
      ensures seek.Found? ==> forall key ::
        key in kvStore <==> key in old(kvStore) || kvPrefix + key in seek.entries
      ensures seek.Found? ==> forall key :: key in kvStore ==>
        kvStore[key] == if kvPrefix + key in seek.entries then Str(seek.entries[kvPrefix + key]) else old(kvStore)[key]
    {
      if seek.SeekFailed? {
        return Some(SeekError);
      }
      var entries := seek.entries;
      var remaining := entries.Keys;
      ghost var done: set<string> := {};
      while remaining != {}
        invariant remaining + done == entries.Keys && remaining !! done
        invariant LoadedFrom(kvPrefix, old(kvStore), entries, done, kvStore)
        decreases remaining
      {
        var k :| k in remaining;
        LoadStep(kvPrefix, old(kvStore), entries, done, kvStore, k);
        kvStore := kvStore[StripPrefix(kvPrefix, k) := Str(entries[k])];
        remaining := remaining - {k};
        done := done + {k};
      }
      err := None;
    }
  }

  /** An added key reads back as the value added; adding it again fails with ErrDuplicateKey and keeps the first value. */
  method AddThenGet(prefix: string, key: string, value: string, other: string)
    returns (got: Option<string>, again: Option<KvError>, after: Option<string>)
    requires key != ""
    ensures got == Some(value) && again == Some(DuplicateKey) && after == Some(value)
  {
    var kv := new Kv(prefix);
    var res, err := kv.AddKey(Some(key), Some(value), Committed);
    got, err := kv.GetKey(key);
    res, again := kv.AddKey(Some(key), Some(other), Committed);
    after, err := kv.GetKey(key);
  }

  /** A refused submit leaves the store as it was: the key is still unknown afterwards. */
  method RefusedAddThenGet(prefix: string, key: string, value: string)
    returns (added: Option<KvError>, got: Option<KvError>, log: seq<RaftCmd>)
    requires key != ""
    ensures added == Some(SubmitError) && got == Some(KeyNotExists) && log == []
  {
    var kv := new Kv(prefix);
    var res;
    res, added := kv.AddKey(Some(key), Some(value), SubmitFailed);
    res, got := kv.GetKey(key);
    log := kv.log;
  }

  /** `%+5` on "7" gives "12", then `%-3` gives "9"; `%+4` on an absent key gives "4". */
  method DeltaUpdates(prefix: string) returns (first: Option<string>, second: Option<string>, absent: Option<string>)
    ensures first == Some("12") && second == Some("9") && absent == Some("4")
  {
    DeltaExamples();
    var kv := new Kv(prefix);
    var res, err := kv.AddKey(Some("n"), Some("7"), Committed);
    first, err := kv.UpdateKey(Some("n"), Some("%+5"), Committed);
    second, err := kv.UpdateKey(Some("n"), Some("%-3"), Committed);
    absent, err := kv.UpdateKey(Some("m"), Some("%+4"), Committed);
  }

  /** Deleting a key makes it unknown; deleting it again fails with ErrKeyNotExists and submits nothing. */
  method DeleteThenGet(prefix: string, key: string, value: string)
    returns (got: Option<KvError>, again: Option<KvError>, commands: nat)
    requires key != ""
    ensures got == Some(KeyNotExists) && again == Some(KeyNotExists) && commands == 2
  {
    var kv := new Kv(prefix);
    var res, err := kv.AddKey(Some(key), Some(value), Committed);
    err := kv.DelKey(key, Committed);
    var v;
    v, got := kv.GetKey(key);
    again := kv.DelKey(key, Committed);
    commands := |kv.log|;
  }

  /**
   * `%1x` on "a#b" answers "%1x#b" and leaves a *string under the key, so
   * getKey's type assertion (and any later delta or field update) cannot proceed.
   */
  method FieldUpdateLeavesPointer(prefix: string) returns (result: Option<string>, stored: Stored)
    ensures result == Some("%1x#b") && stored == StrPtr("%1x#b")
  {
    var kv := new Kv(prefix);
    var res, err := kv.AddKey(Some("k"), Some("a#b"), Committed);
    Field1MarkerExample();
    result, err := kv.UpdateKey(Some("k"), Some("%1x"), Committed);
    stored := kv.kvStore["k"];
  }
}
