/** The JSON configuration file: its lock directory, its atomic rewrite, and one update from start to end. */
module ConfigFile {
  import opened Options

  const LOCK_RETRY_MS := 25
  const LOCK_ACQUIRE_TIMEOUT_MS := 5000
  const LOCK_STALE_MS := 5000

  /** A parsed document: printed member values by name. */
  type Document = map<string, string>

  /** What is at a path: nothing, a whole document, text that does not parse, or a file half written. */
  datatype Content = Missing | Whole(document: Document) | Invalid | Partial

  datatype UpdateError = LockTimeout | InvalidJson

  /** `Object.assign(config, patch)`. */
  function Merge(config: Document, patch: Document): (merged: Document)
    ensures forall key :: key in merged <==> key in config || key in patch
    ensures forall key :: key in merged ==> merged[key] == if key in patch then patch[key] else config[key]
  {
    config + patch
  }

  /** `readJsonConfigFile`: a missing file reads as an empty document. */
  function Read(content: Content): Result<Document, UpdateError> {
    match content
    case Missing => Ok(map[])
    case Whole(document) => Ok(document)
    case _ => Err(InvalidJson)
  }

  /**
   * The file, the lock directory with its creation time, and the writer's temporary file. `shown` records
   * what a reader would have found after each call that touches a file.
   */
  class ConfigDirectory {
    var file: Content
    ghost var shown: seq<Content>
    var lock: Option<int>
    var temporary: Content
    var now: int

    constructor (file: Content, lock: Option<int>, now: int)
      ensures this.file == file && this.lock == lock && this.now == now && temporary == Missing && shown == []
    {
      shown := [];
      this.file, this.lock, this.now, this.temporary := file, lock, now, Missing;
    }

    /** One try at `mkdir`, which fails when the directory exists. */
    method MakeLock() returns (made: bool)
      modifies this`lock
      ensures made <==> old(lock) == None
      ensures lock == if made then Some(now) else old(lock)
    {
      if lock.Some? {
        return false;
      }
      lock := Some(now);
      return true;
    }

    /** What other writers have made of the lock before the next call; `others` lists their interventions. */
    method LetOthersAct(others: seq<Option<int>>, k: nat) returns (next: nat)
      requires k <= |others|
      modifies this`lock
      ensures k <= next <= |others|
      ensures next == k ==> lock == old(lock) && k == |others|
    {
      if k == |others| {
        return k;
      }
      lock := others[k];
      return k + 1;
    }

    /**
     * Other writers may set or remove the lock before any of the calls, as `others` says, finitely often.
     * The wait ends with a lock of one's own, or, past the deadline, with one that was made since the wait
     * began. With no other writer, a lock left behind before it began is always taken over.
     */
    method AcquireLock(others: seq<Option<int>>) returns (acquired: bool)
      modifies this`lock, this`now
      ensures old(now) <= now
      ensures acquired ==> lock == Some(now)
      ensures !acquired ==> now >= old(now) + LOCK_ACQUIRE_TIMEOUT_MS
                            && lock.Some? && now - lock.value <= LOCK_STALE_MS && lock.value >= old(now)
      ensures others == [] ==>
                && (acquired ==> old(lock) == None || now - old(lock).value > LOCK_STALE_MS)
                && (!acquired ==> lock == old(lock))
                && (old(lock) == None || old(now) - old(lock).value > LOCK_STALE_MS ==> now == old(now))
    {
      var deadline := now + LOCK_ACQUIRE_TIMEOUT_MS;
      var k := 0;
      while true
        invariant old(now) <= now && k <= |others|
        invariant others == [] ==>
                    lock == old(lock) || (lock == None && old(lock).Some? && now - old(lock).value > LOCK_STALE_MS)
        invariant others == [] && (old(lock) == None || old(now) - old(lock).value > LOCK_STALE_MS) ==> now == old(now)
        decreases |others| - k, (if lock.Some? then 1 else 0),
                  if now < deadline then deadline - now else 0
      {
        k := LetOthersAct(others, k);
        var made := MakeLock();
        if made {
          return true;
        }
        k := LetOthersAct(others, k);
        if lock.None? {
          continue;
        }
        var age := now - lock.value;
        if age > LOCK_STALE_MS {
          k := LetOthersAct(others, k);
          lock := None;
          continue;
        }
        if now >= deadline {
          return false;
        }
        var delay: int :| delay >= LOCK_RETRY_MS;
        now := now + delay;
      }
    }

    /** `rmdir`; a directory that is gone already is nothing to report. */
    method ReleaseLock()
      modifies this`lock
      ensures lock == None
    {
      lock := None;
    }

    /** Opens the temporary file, or writes and syncs it. */
    method WriteTemporary(content: Content)
      modifies this`temporary, this`shown
      ensures temporary == content && shown == old(shown) + [file]
    {
      temporary := content;
      shown := shown + [file];
    }

    method RenameTemporary()
      modifies this`file, this`temporary, this`shown
      ensures file == old(temporary) && temporary == Missing && shown == old(shown) + [file]
    {
      file, temporary := temporary, Missing;
      shown := shown + [file];
    }

    /** Temporary file, then rename: a reader finds the old content until it finds the whole new document. */
    method WriteAtomically(content: Document)
      modifies this`file, this`temporary, this`shown
      ensures file == Whole(content) && temporary == Missing
      ensures shown == old(shown) + [old(file), old(file), Whole(content)]
    {
      WriteTemporary(Partial);
      WriteTemporary(Whole(content));
      RenameTemporary();
    }

    /**
     * `updateJsonConfigFile`: every way out but a timeout leaves the lock released. A timeout means a lock
     * that was made no earlier than the update began, by the lock's own stamp.
     */
    method Update(patch: Document) returns (r: Result<Document, UpdateError>)
      modifies this
      ensures r == Err(LockTimeout) ==> file == old(file) && lock == old(lock) && lock.Some? && lock.value >= old(now)
                                        && now >= old(now) + LOCK_ACQUIRE_TIMEOUT_MS
                                        && now - lock.value <= LOCK_STALE_MS
      ensures r != Err(LockTimeout) ==> lock == None
      ensures r == Err(InvalidJson) ==> file == old(file) && Read(old(file)) == Err(InvalidJson)
      ensures r.Ok? ==> Read(old(file)).Ok? && r.value == Merge(Read(old(file)).value, patch) && file == Whole(r.value)
      ensures r.Ok? && old(file) == Missing ==> r.value == patch
      ensures r.Ok? && old(file).Whole? ==>
                forall key :: key in r.value ==>
                  r.value[key] == if key in patch then patch[key] else old(file).document[key]
      ensures r != Err(LockTimeout) ==> (r.Ok? <==> old(file).Missing? || old(file).Whole?)
      ensures old(lock).None? || old(lock).value < old(now) ==> r != Err(LockTimeout)
      ensures old(shown) <= shown && forall k :: |old(shown)| <= k < |shown| ==> shown[k] in {old(file), file}
    {
      var acquired := AcquireLock([]);
      if !acquired {
        return Err(LockTimeout);
      }
      var config := Read(file);
      if config.Err? {
        ReleaseLock();
        return config;
      }
      var merged := Merge(config.value, patch);
      WriteAtomically(merged);
      ReleaseLock();
      return Ok(merged);
    }
  }
}
