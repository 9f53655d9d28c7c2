/**
 * The object behind the protocol of a cache entry (blobstore/cachedblobstore/cachedblobentry.go). Each
 * method is what the source does in one go under the entry's lock, or one access to a blob made outside of
 * it, and is proved to be a step of the protocol. A panic sets the state to `Panicked`.
 */
module CachedBlobEntry {
  import opened Bytes
  import opened CacheEntry

  class CachedBlobEntry {
    const ver: Ver
    var state: St
    var bloblen: int
    var validlen: int
    var cache: bytes
    var backend: bytes
    var bever: int
    var handles: nat
    ghost var begun: multiset<Edit>
    ghost var applied: multiset<Edit>
    ghost var wb: Option<Writeback>
    ghost var fetch: Fetch
    ghost var owed: bool

    ghost function Value(): Entry
      reads this
    {
      Entry(state, bloblen, validlen, cache, backend, bever, handles, begun, applied, wb, fetch, owed)
    }

    ghost predicate Valid()
      reads this
    {
      !state.Panicked? && Inv(Value(), ver)
    }

    constructor (ver: Ver, cache: bytes, backend: bytes, bever: int)
      requires ver(cache) < bever ==> ver(backend) <= bever
      ensures Valid() && state == Uninitialized && this.ver == ver
    {
      this.ver, this.cache, this.backend, this.bever := ver, cache, backend, bever;
      state, bloblen, validlen, handles := Uninitialized, -1, 0, 0;
      begun, applied, wb, fetch, owed := multiset{}, multiset{}, None, Idle, false;
    }

    method UpdateState(newState: St)
      modifies this`state
      ensures state == Next(old(state), newState)
    {
      var unexpected := true;
      match state {
        case Uninitialized => unexpected := !(newState.Invalidating? || newState.Clean? || newState.Errored?);
        case Invalidating => unexpected := !(newState.Clean? || newState.Errored?);
        case Errored => unexpected := !newState.ErroredClosed?;
        case Clean => unexpected := !(newState.WriteInProgress? || newState.Closing?);
        case WriteInProgress => unexpected := !newState.Dirty?;
        case WritebackInProgress =>
          unexpected := !(newState.Clean? || newState.StaleWritebackInProgress? || newState.Errored?);
        case StaleWritebackInProgress => unexpected := !(newState.Dirty? || newState.StaleWritebackInProgress?);
        case Dirty =>
          unexpected := !(newState.WriteInProgress? || newState.WritebackInProgress? || newState.DirtyClosing?);
        case DirtyClosing => unexpected := !newState.Closed?;
        case Closing => unexpected := !newState.Closed?;
        case Closed => unexpected := !(newState.Clean? || newState.Errored?);
        case _ =>
      }
      state := if unexpected then Panicked else newState;
    }

    method InitializeWithLock() returns (ok: bool)
      requires Valid() && (state.Uninitialized? || state.Closed?)
      modifies this
      ensures Initialize(old(Value()), Value(), ver) && Inv(Value(), ver)
      ensures Value() == if ok then Initialized(old(Value()), ver) else To(old(Value()), Errored)
    {
      if * {
        UpdateState(Errored);
        InitializeInv(old(Value()), Value(), ver);
        return false;
      }
      CompareVersions();
      InitializeInv(old(Value()), Value(), ver);
      ok := true;
    }

    method CompareVersions()
      modifies this
      ensures Value() == Initialized(old(Value()), ver)
    {
      var cachever := ver(cache);
      handles := 0;
      if cachever > bever {
        MarkDirty();
        bloblen := |cache|;
        validlen := bloblen;
      } else if cachever == bever {
        UpdateState(Clean);
        bloblen := |cache|;
        validlen := bloblen;
      } else {
        bloblen := |backend|;
        if bloblen == 0 {
          UpdateState(Clean);
        } else {
          UpdateState(Invalidating);
          validlen := 0;
          fetch := Queued;
        }
      }
    }

    method MarkDirty()
      modifies this`state
      ensures state == Next(Next(Next(old(state), Clean), WriteInProgress), Dirty)
    {
      UpdateState(Clean);
      UpdateState(WriteInProgress);
      UpdateState(Dirty);
    }

    /** Whether the wait for the first `requiredLen` bytes is over, and how. */
    method WaitUntilInvalidateAtLeast(requiredLen: int) returns (w: Wait)
      modifies this`state
      ensures w == Waited(old(Value()), requiredLen)
      ensures state == if w.Broken? then Panicked else old(state)
    {
      match state {
        case Invalidating =>
          if validlen >= requiredLen {
            return Passed;
          }
          return Blocked;
        case Errored => return Refused;
        case Closing => return Refused;
        case ErroredClosed => return Refused;
        case Clean => return Passed;
        case Dirty => return Passed;
        case WriteInProgress => return Passed;
        case WritebackInProgress => return Passed;
        case StaleWritebackInProgress => return Passed;
        case _ =>
          state := Panicked;
          return Broken;
      }
    }

    method MarkWriteInProgressWithLock()
      modifies this`state
      ensures state == MarkedWriting(old(state))
    {
      match state {
        case Clean => UpdateState(WriteInProgress);
        case Dirty => UpdateState(WriteInProgress);
        case WritebackInProgress => UpdateState(StaleWritebackInProgress);
        case StaleWritebackInProgress => UpdateState(StaleWritebackInProgress);
        case _ => state := Panicked;
      }
    }

    method MarkWriteEndWithLock()
      modifies this`state
      ensures state == MarkedWritten(old(state))
    {
      match state {
        case WriteInProgress => UpdateState(Dirty);
        case StaleWritebackInProgress =>
        case _ => state := Panicked;
      }
    }

    /** A write up to where it lets go of the lock; it goes on only if told so. */
    method PWriteBegin(p: bytes, offset: nat) returns (goOn: bool)
      requires Valid() && handles > 0
      modifies this
      ensures Inv(Value(), ver)
      ensures goOn ==> WriteBegin(old(Value()), Value(), PWrite(p, offset)) && PWrite(p, offset) in begun
      ensures !goOn ==> Value() == old(Value()) || WriteBegin(old(Value()), Value(), PWrite(p, offset))
    {
      goOn := PWriteMark(p, offset);
      if goOn || Value() != old(Value()) {
        WriteBeginInv(old(Value()), Value(), PWrite(p, offset), ver);
      }
    }

    method PWriteMark(p: bytes, offset: nat) returns (goOn: bool)
      requires handles > 0
      modifies this
      ensures goOn <==> Waited(old(Value()), old(bloblen)) == Passed && p != []
      ensures goOn ==> WriteBegin(old(Value()), Value(), PWrite(p, offset)) && PWrite(p, offset) in begun
      ensures !goOn ==>
                var broken := Waited(old(Value()), old(bloblen)).Broken?;
                Value() == old(Value()).(st := if broken then Panicked else old(state))
    {
      var wait := WaitUntilInvalidateAtLeast(bloblen);
      if wait != Passed || |p| == 0 {
        return false;
      }
      PWriteMarkPassed(p, offset);
      goOn := true;
    }

    method PWriteMarkPassed(p: bytes, offset: nat)
      requires p != []
      modifies this
      ensures Value() == Begun(old(Value()), PWrite(p, offset))
    {
      var right := offset + |p|;
      if right > bloblen {
        bloblen := right;
        validlen := right;
      }
      MarkWriteInProgressWithLock();
      begun, wb := begun + multiset{PWrite(p, offset)}, Raced(wb);
    }

    method PWriteEnd(ghost w: Edit)
      requires Valid() && w in applied
      modifies this
      ensures Inv(Value(), ver) && WriteEnd(old(Value()), Value(), w)
    {
      ghost var e := Value();
      applied := applied - multiset{w};
      MarkWriteEndWithLock();
      WriteEndInv(e, Value(), w, ver);
    }

    /** The beginning of a writeback; it copies only if told so. */
    method WriteBackBegin() returns (copy: bool)
      requires Valid() && wb.None? && (state.Dirty? || (state.DirtyClosing? && owed))
      modifies this
      ensures Inv(Value(), ver) && WritebackBegin(old(Value()), Value(), ver)
      ensures copy <==> wb.Some?
      ensures copy <==> ver(old(cache)) > old(bever)
    {
      ghost var e := Value();
      var cachever := ver(cache);
      if bever == cachever {
        UpdateState(WritebackInProgress);
        UpdateState(Clean);
        WritebackBeginInv(e, Value(), ver);
        return false;
      }
      if bever > cachever {
        return false;
      }
      if state.Dirty? {
        UpdateState(WritebackInProgress);
      }
      wb := Some(Writeback(cachever, None, cache, !NoWrites(e), false));
      WritebackBeginInv(e, Value(), ver);
      copy := true;
    }

    /** The end of a writeback whose copy is complete; that the writer could not be closed goes unnoticed. */
    method WriteBackEnd(cachever: int, data: bytes) returns (closed: bool)
      requires Valid() && wb.Some? && wb.value.cachever == cachever
      requires wb.value.out.Some? && wb.value.out.value.data == data && |data| >= Min(wb.value.out.value.size, |cache|)
      modifies this
      ensures Inv(Value(), ver) && WritebackEnd(old(Value()), Value(), closed, ver)
    {
      ghost var e := Value();
      RecordWrittenBack(cachever);
      closed := *;
      if closed {
        backend := data;
      }
      WritebackEndInv(e, Value(), closed, ver);
    }

    method RecordWrittenBack(cachever: int)
      requires wb.Some? && wb.value.cachever == cachever
      modifies this`bever, this`wb, this`owed, this`state
      ensures Value() == WrittenBack(old(Value()), false, ver)
    {
      bever := cachever;
      wb, owed := None, false;
      MarkWrittenBack(cachever);
    }

    method MarkWrittenBack(cachever: int)
      modifies this`state
      ensures state == match old(state)
                       case WritebackInProgress => Next(old(state), if ver(cache) == cachever then Clean else Dirty)
                       case StaleWritebackInProgress => Next(old(state), Dirty)
                       case _ => old(state)
    {
      match state {
        case DirtyClosing =>
        case WritebackInProgress =>
          var cacheverAfterWriteback := ver(cache);
          if cacheverAfterWriteback == cachever {
            UpdateState(Clean);
          } else {
            UpdateState(Dirty);
          }
        case StaleWritebackInProgress => UpdateState(Dirty);
        case _ =>
      }
    }

    /** A close up to where it has claimed the entry, or has been refused. */
    method CloseClaim(mode: CloseMode) returns (claimed: bool)
      requires Valid()
      modifies this
      ensures Inv(Value(), ver)
      ensures old(handles) > 0 && !old(state).Errored? ==> !claimed && Value() == old(Value())
      ensures old(handles) == 0 || old(state).Errored? ==> CloseBegin(old(Value()), Value(), mode, ver)
      ensures claimed ==> state.Closing? || state.DirtyClosing? || state.Errored?
    {
      claimed := false;
      if state != Errored && handles > 0 {
        return;
      }
      var m := mode;
      if mode == WritebackIfNeededAndClose {
        m := if state == ErroredClosed then WritebackAndClose else AbandonAndClose;
      }
      ghost var e := Value();
      if state == Uninitialized {
        var ok := InitializeWithLock();
        if !ok {
          return;
        }
      }
      claimed := Claim(m);
      CloseBeginInv(e, Value(), mode, ver);
    }

    method Claim(m: CloseMode) returns (claimed: bool)
      modifies this`state, this`owed
      ensures Value() == ClosingBegun(old(Value()), m)
      ensures claimed ==> state.Closing? || state.DirtyClosing? || state.Errored?
    {
      claimed := false;
      match state {
        case Invalidating =>
          if m == AbandonAndClose {
            UpdateState(Closing);
          }
        case Clean =>
          UpdateState(Closing);
          claimed := true;
        case Dirty =>
          UpdateState(DirtyClosing);
          owed := m == WritebackAndClose;
          claimed := true;
        case Errored => claimed := true;
        case _ =>
      }
    }

    /** The end of a close that owes nothing; an entry given up loses its cached blob. */
    method CloseFinish()
      requires Valid() && (state.Closing? || state.Errored? || (state.DirtyClosing? && wb.None? && !owed))
      modifies this
      ensures Inv(Value(), ver) && CloseEnd(old(Value()), Value())
    {
      ghost var e := Value();
      if state == Errored {
        cache := [];
        UpdateState(ErroredClosed);
      } else {
        UpdateState(Closed);
      }
      CloseEndInv(e, Value(), ver);
    }

    /** What the fetching task does under the lock after it has appended to the cached blob. */
    method InvalidateMark(nw: nat)
      requires Valid() && fetch.Running? && |cache| == validlen + nw && nw > 0
      modifies this
      ensures Inv(Value(), ver) && FetchMark(old(Value()), Value())
    {
      ghost var e := Value();
      AddValid(nw);
      FetchInv(e, Value(), ver);
    }

    method AddValid(nw: nat)
      requires |cache| == validlen + nw
      modifies this
      ensures Value() == Marked(old(Value()))
    {
      validlen := validlen + nw;
      if validlen == bloblen {
        UpdateState(Clean);
        fetch := Idle;
      } else if validlen > bloblen {
        state := Panicked;
      }
    }

    method InvalidateFailed()
      requires Valid() && !fetch.Idle?
      modifies this
      ensures Inv(Value(), ver) && FetchFail(old(Value()), Value())
    {
      ghost var e := Value();
      validlen := 0;
      fetch := Idle;
      UpdateState(Errored);
      FetchInv(e, Value(), ver);
    }
  }
}
