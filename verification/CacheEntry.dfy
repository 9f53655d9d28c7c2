/**
 * One entry of the blob cache (blobstore/cachedblobstore/cachedblobentry.go) as a protocol. A step is one
 * critical section, or one access to the cached or the backend blob made outside of the lock. `ver` says
 * which version a blob's content carries; `bever` is the version recorded for the backend. A step the
 * source answers with a panic leads to `Panicked`, and the run is over.
 */
module CacheEntry {
  import opened Bytes

  datatype St =
    | Uninitialized | Invalidating | Errored | ErroredClosed | Clean | WriteInProgress | WritebackInProgress
    | StaleWritebackInProgress | Dirty | DirtyClosing | Closing | Closed | Panicked

  /** A change to the cached blob: bytes put at an offset, or a new length. */
  datatype Edit = PWrite(p: bytes, offset: nat) | Truncate(size: nat)

  /**
   * What the backend writer of a writeback has been given, out of how much. A writer that is `direct`
   * changes the blob at once; any other makes the blob what it was given when it is closed.
   */
  datatype Output = Output(size: nat, data: bytes, direct: bool)

  /**
   * A writeback under way: the version taken when it began, what it has written once the writer is open,
   * and, for the record, the content at the beginning, whether writes were in flight then, and whether one
   * has begun since.
   */
  datatype Writeback = Writeback(cachever: int, out: Option<Output>, seen: bytes, inFlight: bool, raced: bool)

  /** How far fetching the backend blob has come. */
  datatype Fetch = Idle | Queued | Running

  /**
   * `begun` edits still have to reach the cached blob; `applied` ones have, and still have to end. A close
   * that is to write back first owes that until it is done.
   */
  datatype Entry = Entry(st: St, bloblen: int, validlen: int, cache: bytes, backend: bytes, bever: int, handles: nat,
                         begun: multiset<Edit>, applied: multiset<Edit>, wb: Option<Writeback>, fetch: Fetch,
                         owed: bool)

  type Ver = bytes -> int

  /** The transitions `updateState` lets through. */
  predicate Allowed(s: St, n: St)
  {
    match s
    case Uninitialized => n.Invalidating? || n.Clean? || n.Errored?
    case Invalidating => n.Clean? || n.Errored?
    case Errored => n.ErroredClosed?
    case ErroredClosed => false
    case Clean => n.WriteInProgress? || n.Closing?
    case WriteInProgress => n.Dirty?
    case WritebackInProgress => n.Clean? || n.StaleWritebackInProgress? || n.Errored?
    case StaleWritebackInProgress => n.Dirty? || n.StaleWritebackInProgress?
    case Dirty => n.WriteInProgress? || n.WritebackInProgress? || n.DirtyClosing?
    case DirtyClosing => n.Closed?
    case Closing => n.Closed?
    case Closed => n.Clean? || n.Errored?
    case Panicked => false
  }

  function To(e: Entry, n: St): Entry { e.(st := Next(e.st, n)) }

  predicate Listed(s: St)
  {
    || s.Invalidating? || s.Clean? || s.WriteInProgress?
    || s.WritebackInProgress? || s.StaleWritebackInProgress? || s.Dirty?
  }

  predicate NoWrites(e: Entry) { e.begun == multiset{} && e.applied == multiset{} }

  // ---------------------------------------------------------------- opening and fetching

  function Next(s: St, n: St): St { if Allowed(s, n) then n else Panicked }

  /** Opening compares versions: a newer cache is dirty, an equal one clean, an older one to be fetched. */
  function InitialState(e: Entry, ver: Ver): St
  {
    if ver(e.cache) > e.bever then Next(Next(Next(e.st, Clean), WriteInProgress), Dirty)
    else if ver(e.cache) == e.bever || |e.backend| == 0 then Next(e.st, Clean)
    else Next(e.st, Invalidating)
  }

  function Initialized(e: Entry, ver: Ver): Entry
  {
    var cached, fetched := ver(e.cache) >= e.bever, ver(e.cache) < e.bever && |e.backend| > 0;
    e.(st := InitialState(e, ver), handles := 0,
       bloblen := if cached then |e.cache| else |e.backend|,
       validlen := if cached then |e.cache| else if fetched then 0 else e.validlen,
       fetch := if fetched then Queued else e.fetch)
  }

  ghost predicate Initialize(e: Entry, e': Entry, ver: Ver)
  {
    (e.st.Uninitialized? || e.st.Closed?) && (e' == Initialized(e, ver) || e' == To(e, Errored))
  }

  ghost predicate OpenHandle(e: Entry, e': Entry)
  {
    Listed(e.st) && e' == e.(handles := e.handles + 1)
  }

  /** The last handle is not closed while a write is under way. */
  ghost predicate CloseHandle(e: Entry, e': Entry)
  {
    e.handles > 0 && (e.handles > 1 || NoWrites(e)) && e' == e.(handles := e.handles - 1)
  }

  /** Opening the cached blob for writing truncates it. */
  ghost predicate FetchOpen(e: Entry, e': Entry)
  {
    e.fetch.Queued? && e.st.Invalidating? && e' == e.(fetch := Running, cache := [])
  }

  /** A block of the backend blob is appended to the cached blob. */
  ghost predicate FetchWrite(e: Entry, e': Entry, n: nat)
  {
    && e.fetch.Running? && |e.cache| == e.validlen && 0 < n && |e.cache| + n <= |e.backend|
    && e' == e.(cache := e.cache + e.backend[|e.cache|..|e.cache| + n])
  }

  function Marked(e: Entry): Entry
  {
    var f := e.(validlen := |e.cache|);
    if f.validlen == f.bloblen then To(f, Clean).(fetch := Idle)
    else if f.validlen > f.bloblen then f.(st := Panicked)
    else f
  }

  ghost predicate FetchMark(e: Entry, e': Entry)
  {
    e.fetch.Running? && |e.cache| > e.validlen && e' == Marked(e)
  }

  /** A failed or cancelled fetch gives the entry up. */
  ghost predicate FetchFail(e: Entry, e': Entry)
  {
    !e.fetch.Idle? && e' == To(e.(validlen := 0, fetch := Idle), Errored)
  }

  // ---------------------------------------------------------------- writing

  function Right(w: Edit): nat { if w.PWrite? then w.offset + |w.p| else w.size }

  /** Whether the edit sets the recorded lengths when it begins. */
  predicate Lengthens(e: Entry, w: Edit) { w.Truncate? || Right(w) > e.bloblen }

  function MarkedWriting(s: St): St
  {
    match s
    case Clean => Next(s, WriteInProgress)
    case Dirty => Next(s, WriteInProgress)
    case WritebackInProgress => Next(s, StaleWritebackInProgress)
    case StaleWritebackInProgress => Next(s, StaleWritebackInProgress)
    case _ => Panicked
  }

  function Begun(e: Entry, w: Edit): Entry
  {
    e.(st := MarkedWriting(e.st), begun := e.begun + multiset{w}, wb := Raced(e.wb),
       bloblen := if Lengthens(e, w) then Right(w) else e.bloblen,
       validlen := if Lengthens(e, w) then Right(w) else e.validlen)
  }

  /** Whether waiting until the entry is valid up to `required` is over, and how. */
  datatype Wait = Blocked | Passed | Refused | Broken

  function Waited(e: Entry, required: int): Wait
  {
    match e.st
    case Invalidating => if e.validlen >= required then Passed else Blocked
    case Errored => Refused
    case Closing => Refused
    case ErroredClosed => Refused
    case Uninitialized => Broken
    case DirtyClosing => Broken
    case Closed => Broken
    case Panicked => Broken
    case _ => Passed
  }

  /** An edit that changes nothing does not begin. */
  predicate Idles(e: Entry, w: Edit)
  {
    if w.PWrite? then w.p == [] else w.size == e.bloblen
  }

  function Raced(wb: Option<Writeback>): Option<Writeback>
  {
    if wb.Some? then Some(wb.value.(raced := true)) else None
  }

  ghost predicate WriteBegin(e: Entry, e': Entry, w: Edit)
  {
    && e.handles > 0
    && match Waited(e, e.bloblen)
       case Blocked => false
       case Refused => w.Truncate? && !Idles(e, w) && e' == e.(st := Panicked)
       case Broken => e' == e.(st := Panicked)
       case Passed => !Idles(e, w) && e' == Begun(e, w)
  }

  ghost function Edited(cache: bytes, w: Edit): bytes
  {
    match w
    case PWrite(p, off) => Overwrite(cache, p, off)
    case Truncate(n) => if n <= |cache| then cache[..n] else cache + Zeros(n - |cache|)
  }

  /** The edit reaches the cached blob, outside of the lock. */
  ghost predicate WriteApply(e: Entry, e': Entry, w: Edit)
  {
    && w in e.begun
    && e' == e.(cache := Edited(e.cache, w), begun := e.begun - multiset{w}, applied := e.applied + multiset{w})
  }

  function MarkedWritten(s: St): St
  {
    match s
    case WriteInProgress => Next(s, Dirty)
    case StaleWritebackInProgress => s
    case _ => Panicked
  }

  ghost predicate WriteEnd(e: Entry, e': Entry, w: Edit)
  {
    w in e.applied && e' == e.(applied := e.applied - multiset{w}, st := MarkedWritten(e.st))
  }

  // ---------------------------------------------------------------- writing back

  /** A writeback begins, under the lock, unless the recorded version says there is nothing to do. */
  function WritingBack(e: Entry, ver: Ver): Entry
  {
    var v := ver(e.cache);
    if e.bever == v then To(To(e, WritebackInProgress), Clean)
    else if e.bever > v then e
    else
      var f := if e.st.Dirty? then To(e, WritebackInProgress) else e;
      f.(wb := Some(Writeback(v, None, e.cache, !NoWrites(e), false)))
  }

  ghost predicate WritebackBegin(e: Entry, e': Entry, ver: Ver)
  {
    e.wb.None? && (e.st.Dirty? || (e.st.DirtyClosing? && e.owed)) && e' == WritingBack(e, ver)
  }

  /** The backend writer is opened; a direct one truncates the blob. */
  ghost predicate WritebackOpen(e: Entry, e': Entry, direct: bool)
  {
    && e.wb.Some? && e.wb.value.out.None?
    && e' == e.(backend := if direct then [] else e.backend,
                wb := Some(e.wb.value.(out := Some(Output(|e.cache|, [], direct)))))
  }

  /** A block of the cached blob, as it is now, is written. */
  ghost predicate WritebackCopy(e: Entry, e': Entry, n: nat)
  {
    && e.wb.Some? && e.wb.value.out.Some?
    && var out := e.wb.value.out.value;
       && 0 < n && |out.data| + n <= Min(out.size, |e.cache|)
       && var data := out.data + e.cache[|out.data|..|out.data| + n];
          e' == e.(backend := if out.direct then data else e.backend,
                   wb := Some(e.wb.value.(out := Some(out.(data := data)))))
  }

  /** What closing the writer makes of the backend blob; an error of it leaves the blob alone, and is ignored. */
  function ClosedBackend(e: Entry, closed: bool): bytes
  {
    if closed && e.wb.Some? && e.wb.value.out.Some? then e.wb.value.out.value.data else e.backend
  }

  /** Opening the writer or writing fails; the writer is closed all the same. */
  ghost predicate WritebackFail(e: Entry, e': Entry, closed: bool)
  {
    e.wb.Some? && e' == To(e.(wb := None, backend := ClosedBackend(e, closed)), Errored)
  }

  /** The copy is complete: the version is recorded, and the entry is clean only if it has not changed. */
  function WrittenBack(e: Entry, closed: bool, ver: Ver): Entry
    requires e.wb.Some?
  {
    var f := e.(bever := e.wb.value.cachever, wb := None, backend := ClosedBackend(e, closed), owed := false);
    match e.st
    case WritebackInProgress => if ver(e.cache) == e.wb.value.cachever then To(f, Clean) else To(f, Dirty)
    case StaleWritebackInProgress => To(f, Dirty)
    case _ => f
  }

  /** The writer is closed on the way out, after all that, and under the same lock. */
  ghost predicate WritebackEnd(e: Entry, e': Entry, closed: bool, ver: Ver)
  {
    && e.wb.Some? && e.wb.value.out.Some? && |e.wb.value.out.value.data| >= Min(e.wb.value.out.value.size, |e.cache|)
    && e' == WrittenBack(e, closed, ver)
  }

  // ---------------------------------------------------------------- closing

  datatype CloseMode = AbandonAndClose | WritebackAndClose | WritebackIfNeededAndClose

  /** The mode a close goes by: nothing is needed, except for an entry that is closed as errored already. */
  function Effective(mode: CloseMode, s: St): CloseMode
  {
    if mode != WritebackIfNeededAndClose then mode
    else if s.ErroredClosed? then WritebackAndClose
    else AbandonAndClose
  }

  /** An entry being fetched is refused, or abandoned; one being written, written back or closed is left alone. */
  function ClosingBegun(e: Entry, mode: CloseMode): Entry
  {
    match e.st
    case Invalidating => if mode == AbandonAndClose then To(e, Closing) else e
    case Clean => To(e, Closing)
    case Dirty => To(e, DirtyClosing).(owed := mode == WritebackAndClose)
    case _ => e
  }

  /** An entry that was never opened is opened first, which may fail. */
  ghost predicate CloseBegin(e: Entry, e': Entry, mode: CloseMode, ver: Ver)
  {
    && (e.handles == 0 || e.st.Errored?)
    && var m := Effective(mode, e.st);
       if e.st.Uninitialized? then e' == To(e, Errored) || e' == ClosingBegun(Initialized(e, ver), m)
       else e' == ClosingBegun(e, m)
  }

  /** An entry given up loses its cached blob. */
  ghost predicate CloseEnd(e: Entry, e': Entry)
  {
    || (e.st.Closing? && e' == To(e, Closed))
    || (e.st.DirtyClosing? && e.wb.None? && !e.owed && e' == To(e, Closed))
    || (e.st.Errored? && e' == To(e.(cache := []), ErroredClosed))
  }

  ghost predicate OneOf(e: Entry, e': Entry, ver: Ver)
  {
    && !e.st.Panicked?
    && (|| Initialize(e, e', ver) || OpenHandle(e, e') || CloseHandle(e, e')
        || FetchOpen(e, e') || (exists n: nat :: FetchWrite(e, e', n)) || FetchMark(e, e') || FetchFail(e, e')
        || (exists w :: WriteBegin(e, e', w)) || (exists w :: WriteApply(e, e', w)) || (exists w :: WriteEnd(e, e', w))
        || WritebackBegin(e, e', ver) || (exists direct :: WritebackOpen(e, e', direct))
        || (exists n: nat :: WritebackCopy(e, e', n)) || (exists closed :: WritebackFail(e, e', closed))
        || (exists closed :: WritebackEnd(e, e', closed, ver))
        || (exists mode :: CloseBegin(e, e', mode, ver)) || CloseEnd(e, e'))
  }

  /** One of the steps above, carried folded: mentioning `Unfolded` unfolds it. */
  ghost predicate Step(e: Entry, e': Entry, ver: Ver)
  {
    forall z {:trigger Unfolded(z)} :: Unfolded(z) ==> OneOf(e, e', ver)
  }

  // ---------------------------------------------------------------- what every step keeps

  /** Before an entry is first opened, the version recorded for the backend is not behind a backend to be fetched. */
  ghost predicate Fresh(e: Entry, ver: Ver)
  {
    && NoWrites(e) && e.wb.None? && e.fetch.Idle? && !e.owed
    && (ver(e.cache) < e.bever ==> ver(e.backend) <= e.bever)
  }

  /** While fetching, what is marked valid is the beginning of the backend blob, and nobody writes. */
  ghost predicate Fetching(e: Entry, ver: Ver)
  {
    && NoWrites(e) && e.wb.None? && !e.fetch.Idle?
    && 0 <= e.validlen < e.bloblen == |e.backend|
    && (e.fetch.Queued? ==> e.validlen == 0)
    && (e.fetch.Running? ==> e.validlen <= |e.cache| && e.cache <= e.backend)
    && ver(e.backend) <= e.bever
  }

  /** A writeback that no write has raced copies what was there when it began. */
  ghost predicate Copying(e: Entry, wb: Writeback)
  {
    !wb.raced && !wb.inFlight ==>
      && NoWrites(e) && e.cache == wb.seen
      && (wb.out.Some? ==>
            && wb.out.value.size == |e.cache| && wb.out.value.data <= e.cache
            && (wb.out.value.direct ==> e.backend == wb.out.value.data))
  }

  ghost predicate WritebackOk(e: Entry, ver: Ver)
  {
    && (e.wb.Some? <==>
          e.st.WritebackInProgress? || e.st.StaleWritebackInProgress? || (e.st.DirtyClosing? && e.wb.Some?))
    && (e.owed ==> e.st.DirtyClosing?) && (e.st.DirtyClosing? && e.wb.Some? ==> e.owed && !e.wb.value.inFlight)
    && (e.wb.Some? ==>
          && Copying(e, e.wb.value)
          && (e.wb.value.raced <==> e.st.StaleWritebackInProgress?)
          && e.wb.value.cachever == ver(e.wb.value.seen) && e.wb.value.cachever > e.bever)
  }

  ghost predicate Inv(e: Entry, ver: Ver)
  {
    e.st.Panicked? ||
    (&& (e.handles == 0 ==> NoWrites(e))
     && (e.st.Uninitialized? || e.st.Closing? || e.st.DirtyClosing? || e.st.Closed? ==> e.handles == 0)
     && (e.st.Uninitialized? ==> Fresh(e, ver))
     && (e.st.Invalidating? ==> Fetching(e, ver))
     && (!e.st.Invalidating? ==> e.fetch.Idle?)
     && (e.st.Clean? && NoWrites(e) ==> ver(e.cache) <= e.bever)
     && WritebackOk(e, ver))
  }

  lemma InitializeInv(e: Entry, e': Entry, ver: Ver)
    requires Inv(e, ver) && Initialize(e, e', ver)
    ensures Inv(e', ver)
  {
  }

  lemma HandleInv(e: Entry, e': Entry, ver: Ver)
    requires Inv(e, ver) && (OpenHandle(e, e') || CloseHandle(e, e'))
    ensures Inv(e', ver)
  {
  }

  lemma FetchInv(e: Entry, e': Entry, ver: Ver)
    requires !e.st.Panicked? && Inv(e, ver) && (FetchOpen(e, e') || FetchMark(e, e') || FetchFail(e, e'))
    ensures Inv(e', ver)
  {
    if FetchMark(e, e') && |e.cache| == e.bloblen { assert e.cache == e.backend; }
  }

  lemma FetchWriteInv(e: Entry, e': Entry, n: nat, ver: Ver)
    requires !e.st.Panicked? && Inv(e, ver) && FetchWrite(e, e', n)
    ensures Inv(e', ver)
  {
  }

  lemma WriteBeginInv(e: Entry, e': Entry, w: Edit, ver: Ver)
    requires !e.st.Panicked? && Inv(e, ver) && WriteBegin(e, e', w)
    ensures Inv(e', ver)
  {
  }

  lemma WriteApplyInv(e: Entry, e': Entry, w: Edit, ver: Ver)
    requires !e.st.Panicked? && Inv(e, ver) && WriteApply(e, e', w)
    ensures Inv(e', ver)
  {
    assert w in e.begun && w in e'.applied;
  }

  lemma WriteEndInv(e: Entry, e': Entry, w: Edit, ver: Ver)
    requires !e.st.Panicked? && Inv(e, ver) && WriteEnd(e, e', w)
    ensures Inv(e', ver)
  {
    assert w in e.applied;
  }

  lemma WritebackBeginInv(e: Entry, e': Entry, ver: Ver)
    requires !e.st.Panicked? && Inv(e, ver) && WritebackBegin(e, e', ver)
    ensures Inv(e', ver)
  {
  }

  lemma WritebackOpenInv(e: Entry, e': Entry, direct: bool, ver: Ver)
    requires !e.st.Panicked? && Inv(e, ver) && WritebackOpen(e, e', direct)
    ensures Inv(e', ver)
  {
  }

  lemma WritebackFailInv(e: Entry, e': Entry, closed: bool, ver: Ver)
    requires !e.st.Panicked? && Inv(e, ver) && WritebackFail(e, e', closed)
    ensures Inv(e', ver)
  {
  }

  lemma WritebackEndInv(e: Entry, e': Entry, closed: bool, ver: Ver)
    requires !e.st.Panicked? && Inv(e, ver) && WritebackEnd(e, e', closed, ver)
    ensures Inv(e', ver)
  {
  }

  lemma WritebackCopyInv(e: Entry, e': Entry, n: nat, ver: Ver)
    requires !e.st.Panicked? && Inv(e, ver) && WritebackCopy(e, e', n)
    ensures Inv(e', ver)
  {
  }

  lemma ClosingInv(e: Entry, mode: CloseMode, ver: Ver)
    requires Inv(e, ver) && (e.handles == 0 || e.st.Errored?)
    ensures Inv(ClosingBegun(e, mode), ver)
  {
  }

  lemma CloseBeginInv(e: Entry, e': Entry, mode: CloseMode, ver: Ver)
    requires !e.st.Panicked? && Inv(e, ver) && CloseBegin(e, e', mode, ver)
    ensures Inv(e', ver)
  {
    var m := Effective(mode, e.st);
    if e.st.Uninitialized? {
      InitializeInv(e, Initialized(e, ver), ver);
      InitializeInv(e, To(e, Errored), ver);
      ClosingInv(Initialized(e, ver), m, ver);
    } else {
      ClosingInv(e, m, ver);
    }
  }

  lemma CloseEndInv(e: Entry, e': Entry, ver: Ver)
    requires !e.st.Panicked? && Inv(e, ver) && CloseEnd(e, e')
    ensures Inv(e', ver)
  {
  }

  /** Every step keeps the invariant. */
  lemma StepInv(e: Entry, e': Entry, ver: Ver)
    requires Inv(e, ver) && Step(e, e', ver)
    ensures Inv(e', ver)
  {
    assert Unfolded(0);
    if Initialize(e, e', ver) { InitializeInv(e, e', ver); }
    if OpenHandle(e, e') || CloseHandle(e, e') { HandleInv(e, e', ver); }
    if FetchOpen(e, e') || FetchMark(e, e') || FetchFail(e, e') { FetchInv(e, e', ver); }
    if n: nat :| FetchWrite(e, e', n) { FetchWriteInv(e, e', n, ver); }
    if w :| WriteBegin(e, e', w) { WriteBeginInv(e, e', w, ver); }
    if w :| WriteApply(e, e', w) { WriteApplyInv(e, e', w, ver); }
    if w :| WriteEnd(e, e', w) { WriteEndInv(e, e', w, ver); }
    if WritebackBegin(e, e', ver) { WritebackBeginInv(e, e', ver); }
    if direct :| WritebackOpen(e, e', direct) { WritebackOpenInv(e, e', direct, ver); }
    if closed :| WritebackFail(e, e', closed) { WritebackFailInv(e, e', closed, ver); }
    if closed :| WritebackEnd(e, e', closed, ver) { WritebackEndInv(e, e', closed, ver); }
    if n: nat :| WritebackCopy(e, e', n) { WritebackCopyInv(e, e', n, ver); }
    if mode :| CloseBegin(e, e', mode, ver) { CloseBeginInv(e, e', mode, ver); }
    if CloseEnd(e, e') { CloseEndInv(e, e', ver); }
  }

  // ---------------------------------------------------------------- runs

  ghost predicate Run(es: seq<Entry>, ver: Ver)
  {
    && es != [] && es[0].st.Uninitialized? && es[0].handles == 0 && Fresh(es[0], ver)
    && forall i {:trigger StepAt(es, i, ver)} :: 0 <= i < |es| - 1 ==> StepAt(es, i, ver)
  }

  ghost predicate StepAt(es: seq<Entry>, i: int, ver: Ver)
    requires 0 <= i < |es| - 1
  {
    Step(es[i], es[i + 1], ver)
  }

  lemma {:induction false} RunInv(es: seq<Entry>, n: nat, ver: Ver)
    requires Run(es, ver) && n < |es|
    ensures Inv(es[n], ver)
  {
    if n > 0 {
      RunInv(es, n - 1, ver);
      assert StepAt(es, n - 1, ver);
      StepInv(es[n - 1], es[n], ver);
    }
  }

  /** In every run, a clean entry with no write in flight is of no newer version than is recorded. */
  lemma CleanIsRecorded(es: seq<Entry>, n: nat, ver: Ver)
    requires Run(es, ver) && n < |es| && es[n].st.Clean? && NoWrites(es[n])
    ensures ver(es[n].cache) <= es[n].bever
  {
    RunInv(es, n, ver);
  }

  lemma RacedKept(e: Entry, e': Entry, ver: Ver)
    requires Step(e, e', ver) && Inv(e, ver) && e.wb.Some? && e.wb.value.raced && e'.wb.Some?
    ensures e'.wb.value.raced
  {
    assert Unfolded(0);
    if w :| WriteBegin(e, e', w) {
    } else if w :| WriteEnd(e, e', w) {
    } else if direct :| WritebackOpen(e, e', direct) {
    } else if n: nat :| WritebackCopy(e, e', n) {
    } else if mode :| CloseBegin(e, e', mode, ver) {
    }
  }

  /** From moment `j` on, up to moment `k`, a writeback is under way. */
  ghost predicate Through(es: seq<Entry>, j: nat, k: nat)
  {
    k < |es| && forall i {:trigger es[i].wb} :: j <= i <= k ==> es[i].wb.Some?
  }

  lemma RacedStep(es: seq<Entry>, k: nat, ver: Ver)
    requires Run(es, ver) && 0 < k < |es| && es[k].wb.Some? && es[k - 1].wb.Some? && es[k - 1].wb.value.raced
    ensures es[k].wb.value.raced
  {
    assert StepAt(es, k - 1, ver);
    RunInv(es, k - 1, ver);
    RacedAt(es, k - 1, ver);
  }

  lemma RacedAt(es: seq<Entry>, i: int, ver: Ver)
    requires 0 <= i < |es| - 1 && StepAt(es, i, ver) && Inv(es[i], ver)
    requires es[i].wb.Some? && es[i].wb.value.raced && es[i + 1].wb.Some?
    ensures es[i + 1].wb.value.raced
  {
    RacedKept(es[i], es[i + 1], ver);
  }

  lemma {:induction false} RacedRun(es: seq<Entry>, j: nat, k: nat, ver: Ver)
    requires Run(es, ver) && j <= k && Through(es, j, k) && es[j].wb.value.raced
    ensures es[k].wb.value.raced
    decreases k
  {
    if k > j {
      assert es[k - 1].wb.Some?;
      RacedRun(es, j, k - 1, ver);
      RacedStep(es, k, ver);
    }
  }

  /** In every run, a write that begins during a writeback makes that writeback end in a dirty entry. */
  lemma RacedEndsDirty(es: seq<Entry>, j: nat, k: nat, w: Edit, closed: bool, ver: Ver)
    requires Run(es, ver) && j < k < |es| - 1 && Through(es, j, k)
    requires WriteBegin(es[j], es[j + 1], w) && WritebackEnd(es[k], es[k + 1], closed, ver)
    ensures es[k + 1].st.Dirty?
  {
    BeginRaces(es, j, w, ver);
    RacedRun(es, j + 1, k, ver);
    RunInv(es, k, ver);
    NotPanicked(es, k, ver);
    RacedDirty(es[k], es[k + 1], closed, ver);
  }

  /** A state with a step after it is not the end of a run. */
  lemma NotPanicked(es: seq<Entry>, k: nat, ver: Ver)
    requires Run(es, ver) && k < |es| - 1
    ensures !es[k].st.Panicked?
  {
    assert StepAt(es, k, ver) && Unfolded(0);
  }

  lemma BeginRaces(es: seq<Entry>, j: nat, w: Edit, ver: Ver)
    requires Run(es, ver) && j < |es| - 2 && es[j].wb.Some? && WriteBegin(es[j], es[j + 1], w)
    ensures es[j + 1].wb.Some? && es[j + 1].wb.value.raced
  {
    NotPanicked(es, j, ver);
    NotPanicked(es, j + 1, ver);
  }

  lemma RacedDirty(e: Entry, e': Entry, closed: bool, ver: Ver)
    requires !e.st.Panicked? && Inv(e, ver) && e.wb.Some? && e.wb.value.raced && WritebackEnd(e, e', closed, ver)
    ensures e'.st.Dirty?
  {
  }

  /**
   * In every run, a writeback that began with no write in flight and leaves the entry clean, or closing,
   * has recorded the version of the cached blob; and it has made the backend blob the same as the cached
   * one if and only if the writer was direct or could be closed, or they were the same before.
   */
  lemma WritebackCopies(es: seq<Entry>, k: nat, closed: bool, ver: Ver)
    requires Run(es, ver) && k < |es| - 1 && WritebackEnd(es[k], es[k + 1], closed, ver)
    requires !es[k].wb.value.inFlight && (es[k + 1].st.Clean? || es[k + 1].st.DirtyClosing?)
    ensures es[k + 1].bever == ver(es[k + 1].cache)
    ensures es[k + 1].backend == es[k + 1].cache <==>
              closed || es[k].wb.value.out.value.direct || es[k].backend == es[k].cache
  {
    RunInv(es, k, ver);
    NotPanicked(es, k, ver);
  }

  /** Four steps by which a dirty entry becomes clean with the backend blob as it was, under a new version. */
  lemma CloseLost(e: Entry, ver: Ver) returns (e1: Entry, e2: Entry, e3: Entry, e4: Entry)
    requires e.st.Dirty? && NoWrites(e) && e.wb.None? && ver(e.cache) > e.bever && e.cache != []
    ensures Step(e, e1, ver) && Step(e1, e2, ver) && Step(e2, e3, ver) && Step(e3, e4, ver)
    ensures e4.st.Clean? && NoWrites(e4) && e4.cache == e.cache && e4.bever == ver(e.cache) && e4.backend == e.backend
  {
    e1 := WritingBack(e, ver);
    assert WritebackBegin(e, e1, ver);
    e2 := e1.(wb := Some(e1.wb.value.(out := Some(Output(|e.cache|, [], false)))));
    assert WritebackOpen(e1, e2, false);
    var whole := [] + e.cache[0..|e.cache|];
    assert whole == e.cache;
    e3 := e2.(wb := Some(e2.wb.value.(out := Some(Output(|e.cache|, whole, false)))));
    assert WritebackCopy(e2, e3, |e.cache|);
    e4 := WrittenBack(e3, false, ver);
    assert WritebackEnd(e3, e4, false, ver);
  }

  // ---------------------------------------------------------------- where callers break the run

  /** A write ends well if and only if the entry is marked as written to, by it or by another write. */
  lemma EndPanics(e: Entry, e': Entry, w: Edit)
    requires !e.st.Panicked? && WriteEnd(e, e', w)
    ensures e'.st.Panicked? <==> !e.st.WriteInProgress? && !e.st.StaleWritebackInProgress?
  {
  }

  /**
   * A write that begins panics if and only if the entry is marked as written to outside of a writeback,
   * its wait is refused or broken, or the entry is being fetched and valid all the same.
   */
  lemma BeginPanics(e: Entry, e': Entry, w: Edit)
    requires !e.st.Panicked? && WriteBegin(e, e', w)
    ensures e'.st.Panicked? <==>
              || e.st.WriteInProgress? || e.st.Invalidating?
              || Waited(e, e.bloblen).Refused? || Waited(e, e.bloblen).Broken?
  {
  }

  /**
   * Closing panics if and only if the blob is still being fetched, or begins to be by the opening that
   * comes first, and the mode comes down to abandoning it.
   */
  lemma ClosePanics(e: Entry, e': Entry, mode: CloseMode, ver: Ver)
    requires !e.st.Panicked? && CloseBegin(e, e', mode, ver)
    ensures e'.st.Panicked? <==>
              && Effective(mode, e.st) == AbandonAndClose
              && (|| e.st.Invalidating?
                  || (e.st.Uninitialized? && !e'.st.Errored? && ver(e.cache) < e.bever && e.backend != []))
  {
  }

  /** While the blob is being fetched nobody writes to the cached blob or writes it back. */
  lemma FetchAlone(e: Entry, e': Entry, w: Edit, n: nat, flag: bool, ver: Ver)
    requires Inv(e, ver) && e.st.Invalidating?
    ensures !WriteBegin(e, e', w) && !WriteApply(e, e', w) && !WriteEnd(e, e', w)
    ensures !WritebackBegin(e, e', ver) && !WritebackOpen(e, e', flag) && !WritebackCopy(e, e', n)
    ensures !WritebackFail(e, e', flag) && !WritebackEnd(e, e', flag, ver)
  {
  }

  /** The entry is not marked as written to. */
  predicate Unmarked(e: Entry) { !e.st.WriteInProgress? && !e.st.StaleWritebackInProgress? }

  /** Some write begins. */
  ghost predicate Begins(e: Entry, e': Entry) { exists w :: WriteBegin(e, e', w) }

  ghost predicate BeginsAt(es: seq<Entry>, i: int)
    requires 0 <= i < |es| - 1
  {
    Begins(es[i], es[i + 1])
  }

  lemma UnmarkedOpen(e: Entry, e': Entry, ver: Ver)
    requires (e.st.Uninitialized? || e.st.Closed?) && Initialize(e, e', ver)
    ensures Unmarked(e')
  {
    OpenedState(e, Initialized(e, ver), ver);
  }

  lemma UnmarkedClose(e: Entry, e': Entry, mode: CloseMode, ver: Ver)
    requires Unmarked(e) && (CloseBegin(e, e', mode, ver) || CloseEnd(e, e'))
    ensures Unmarked(e')
  {
    if e.st.Uninitialized? { OpenedState(e, Initialized(e, ver), ver); }
  }

  lemma UnmarkedWriteback(e: Entry, e': Entry, n: nat, flag: bool, ver: Ver)
    requires Unmarked(e)
    requires || WritebackBegin(e, e', ver) || WritebackOpen(e, e', flag) || WritebackCopy(e, e', n)
             || WritebackFail(e, e', flag) || WritebackEnd(e, e', flag, ver)
    ensures Unmarked(e')
  {
  }

  lemma UnmarkedFetch(e: Entry, e': Entry, n: nat)
    requires Unmarked(e)
    requires || OpenHandle(e, e') || CloseHandle(e, e')
             || FetchOpen(e, e') || FetchWrite(e, e', n) || FetchMark(e, e') || FetchFail(e, e')
    ensures Unmarked(e')
  {
  }

  /** Only a write that begins marks the entry. */
  lemma UnmarkedStep(e: Entry, e': Entry, ver: Ver)
    requires Step(e, e', ver) && Unmarked(e) && !Begins(e, e')
    ensures Unmarked(e')
  {
    assert Unfolded(0);
    if w :| WriteBegin(e, e', w) {
      assert Begins(e, e');
    } else if w :| WriteApply(e, e', w) || WriteEnd(e, e', w) {
    } else if n: nat :| FetchWrite(e, e', n) {
      UnmarkedFetch(e, e', n);
    } else if OpenHandle(e, e') || CloseHandle(e, e') || FetchOpen(e, e') || FetchMark(e, e') || FetchFail(e, e') {
      UnmarkedFetch(e, e', 0);
    } else if n: nat :| WritebackCopy(e, e', n) {
      UnmarkedWriteback(e, e', n, false, ver);
    } else if flag :| WritebackOpen(e, e', flag) || WritebackFail(e, e', flag) || WritebackEnd(e, e', flag, ver) {
      UnmarkedWriteback(e, e', 0, flag, ver);
    } else if WritebackBegin(e, e', ver) {
      UnmarkedWriteback(e, e', 0, false, ver);
    } else if mode :| CloseBegin(e, e', mode, ver) {
      UnmarkedClose(e, e', mode, ver);
    } else if CloseEnd(e, e') {
      UnmarkedClose(e, e', AbandonAndClose, ver);
    } else {
      UnmarkedOpen(e, e', ver);
    }
  }

  lemma UnmarkedAt(es: seq<Entry>, i: int, ver: Ver)
    requires 0 <= i < |es| - 1 && StepAt(es, i, ver) && !BeginsAt(es, i) && Unmarked(es[i])
    ensures Unmarked(es[i + 1])
  {
    UnmarkedStep(es[i], es[i + 1], ver);
  }

  lemma {:induction false} UnmarkedRun(es: seq<Entry>, k: nat, n: nat, ver: Ver)
    requires Run(es, ver) && k <= n < |es| && Unmarked(es[k])
    requires forall i {:trigger BeginsAt(es, i)} :: k <= i < n ==> !BeginsAt(es, i)
    ensures Unmarked(es[n])
    decreases n
  {
    if k < n {
      UnmarkedRun(es, k, n - 1, ver);
      UnmarkedAt(es, n - 1, ver);
    }
  }

  /**
   * In every run: once a writeback that a write has raced is over, and as long as no other write begins,
   * whichever write ends panics.
   */
  lemma OutlivedPanics(es: seq<Entry>, j: nat, k: nat, n: nat, w: Edit, v: Edit, closed: bool, ver: Ver)
    requires Run(es, ver) && j < k < n < |es| - 1 && Through(es, j, k)
    requires WriteBegin(es[j], es[j + 1], w) && WritebackEnd(es[k], es[k + 1], closed, ver)
    requires forall i {:trigger BeginsAt(es, i)} :: k < i < n ==> !BeginsAt(es, i)
    requires WriteEnd(es[n], es[n + 1], v)
    ensures es[n + 1].st.Panicked?
  {
    RacedEndsDirty(es, j, k, w, closed, ver);
    UnmarkedRun(es, k + 1, n, ver);
  }

  /**
   * In every run, a write that ends after a writeback that was raced ends well if and only if the entry is
   * marked at that moment; and then a write has begun since the writeback, whose mark it is.
   */
  lemma OutlivedEnds(es: seq<Entry>, j: nat, k: nat, n: nat, w: Edit, v: Edit, closed: bool, ver: Ver)
    requires Run(es, ver) && j < k < n < |es| - 1 && Through(es, j, k)
    requires WriteBegin(es[j], es[j + 1], w) && WritebackEnd(es[k], es[k + 1], closed, ver)
    requires WriteEnd(es[n], es[n + 1], v)
    ensures !es[n + 1].st.Panicked? <==> es[n].st.WriteInProgress? || es[n].st.StaleWritebackInProgress?
    ensures !es[n + 1].st.Panicked? ==> exists i :: k < i < n && BeginsAt(es, i)
  {
    NotPanicked(es, n, ver);
    EndPanics(es[n], es[n + 1], v);
    if forall i {:trigger BeginsAt(es, i)} :: k < i < n ==> !BeginsAt(es, i) {
      OutlivedPanics(es, j, k, n, w, v, closed, ver);
    }
  }

  /** A write that has outlived a writeback ends on the mark of a second one, which is then left without. */
  lemma BorrowedMark(e0: Entry, e1: Entry, e2: Entry, e3: Entry, e4: Entry, w: Edit, v: Edit)
    requires e0.st.Dirty? && w in e0.applied && WriteBegin(e0, e1, v) && WriteEnd(e1, e2, w)
    requires WriteApply(e2, e3, v) && WriteEnd(e3, e4, v)
    ensures e2.st.Dirty? && e4.st.Panicked?
  {
    MarkTaken(e0, e1, e2, w, v);
    MarkMissing(e2, e3, e4, v);
  }

  lemma MarkTaken(e0: Entry, e1: Entry, e2: Entry, w: Edit, v: Edit)
    requires e0.st.Dirty? && WriteBegin(e0, e1, v) && WriteEnd(e1, e2, w)
    ensures e2.st.Dirty?
  {
    assert Waited(e0, e0.bloblen) == Passed;
  }

  lemma MarkMissing(e2: Entry, e3: Entry, e4: Entry, v: Edit)
    requires e2.st.Dirty? && WriteApply(e2, e3, v) && WriteEnd(e3, e4, v)
    ensures e4.st.Panicked?
  {
  }

  // ---------------------------------------------------------------- when the other steps go which way

  /**
   * Opening leaves a newer cache dirty, an equal one clean and an older one to be fetched; an older one is
   * taken for clean when the backend blob is empty. Fetching panics in an entry that was closed before.
   */
  lemma OpenedState(e: Entry, e': Entry, ver: Ver)
    requires (e.st.Uninitialized? || e.st.Closed?) && e' == Initialized(e, ver)
    ensures ver(e.cache) > e.bever ==> e'.st.Dirty?
    ensures ver(e.cache) == e.bever || (ver(e.cache) < e.bever && e.backend == []) ==> e'.st.Clean?
    ensures ver(e.cache) < e.bever && e.backend != [] ==>
              if e.st.Closed? then e'.st.Panicked?
              else e'.st.Invalidating? && e'.fetch.Queued? && e'.validlen == 0
    ensures e'.cache == e.cache && e'.backend == e.backend && e'.bever == e.bever && e'.handles == 0
    ensures !e'.st.Panicked? && !(ver(e.cache) < e.bever && e.backend == []) ==> e'.bloblen == |Logical(e')|
  {
  }

  /** A block that has been fetched makes the entry clean exactly when it was the last one. */
  lemma FetchDone(e: Entry, e': Entry, ver: Ver)
    requires !e.st.Panicked? && Inv(e, ver) && FetchMark(e, e')
    ensures e'.validlen == |e.cache| && e'.cache == e.cache
    ensures if e.cache == e.backend then e'.st.Clean? && e'.fetch.Idle? else e'.st.Invalidating? && e'.fetch.Running?
  {
    if |e.cache| == |e.backend| { assert e.cache == e.backend; }
  }

  /** A fetch that fails gives the entry up, with nothing of it valid. */
  lemma FetchFailed(e: Entry, e': Entry, ver: Ver)
    requires !e.st.Panicked? && Inv(e, ver) && FetchFail(e, e')
    ensures e'.st.Errored? && e'.fetch.Idle? && e'.validlen == 0
    ensures e'.cache == e.cache && e'.backend == e.backend && e'.bever == e.bever
  {
  }

  /** The end of a close keeps the cached blob, except of an entry given up, and never panics. */
  lemma ClosedState(e: Entry, e': Entry)
    requires CloseEnd(e, e')
    ensures e'.st == if e.st.Errored? then ErroredClosed else Closed
    ensures e'.cache == if e.st.Errored? then [] else e.cache
    ensures e'.backend == e.backend && e'.bever == e.bever
  {
  }

  /** A wait is over for an open entry as soon as it is valid that far, and refused or broken for any other. */
  lemma WaitOver(e: Entry, required: int)
    ensures Waited(e, required).Passed? <==> Listed(e.st) && (e.st.Invalidating? ==> required <= e.validlen)
    ensures Waited(e, required).Blocked? <==> e.st.Invalidating? && e.validlen < required
    ensures Waited(e, required).Refused? <==> e.st.Errored? || e.st.ErroredClosed? || e.st.Closing?
  {
  }

  /** A writeback copies if and only if the cached blob is of a newer version than is recorded. */
  lemma WritebackStarts(e: Entry, e': Entry, ver: Ver)
    requires WritebackBegin(e, e', ver)
    ensures e'.wb.Some? <==> ver(e.cache) > e.bever
    ensures e'.wb.Some? ==> e'.st == if e.st.Dirty? then WritebackInProgress else DirtyClosing
    ensures ver(e.cache) == e.bever ==> e' == e.(st := if e.st.Dirty? then Clean else Panicked)
    ensures ver(e.cache) < e.bever ==> e' == e
  {
  }

  /** The end of a writeback panics if and only if the version has changed although no write was marked. */
  lemma WritebackEndPanics(e: Entry, e': Entry, closed: bool, ver: Ver)
    requires !e.st.Panicked? && Inv(e, ver) && WritebackEnd(e, e', closed, ver)
    ensures e'.st.Panicked? <==> e.st.WritebackInProgress? && ver(e.cache) != e.wb.value.cachever
    ensures e'.bever == e.wb.value.cachever && e'.wb.None? && e'.cache == e.cache
  {
  }

  /** A writeback that fails gives the entry up, and panics if it was raced or is part of a close. */
  lemma WritebackFailPanics(e: Entry, e': Entry, closed: bool, ver: Ver)
    requires !e.st.Panicked? && Inv(e, ver) && WritebackFail(e, e', closed)
    ensures e'.st == if e.st.WritebackInProgress? then Errored else Panicked
    ensures e'.bever == e.bever && e'.cache == e.cache && e'.wb.None?
    ensures e'.backend == e.backend || (closed && e.wb.value.out.Some? && e'.backend == e.wb.value.out.value.data)
  {
  }

  lemma RecordedStep(e: Entry, e': Entry, ver: Ver)
    requires Inv(e, ver) && Step(e, e', ver)
    ensures e.bever <= e'.bever
  {
    assert Unfolded(0);
    if closed :| WritebackEnd(e, e', closed, ver) {
      WritebackEndPanics(e, e', closed, ver);
    } else if mode :| CloseBegin(e, e', mode, ver) {
      RecordedClose(e, e', mode, ver);
    }
  }

  lemma RecordedClose(e: Entry, e': Entry, mode: CloseMode, ver: Ver)
    requires CloseBegin(e, e', mode, ver)
    ensures e'.bever == e.bever
  {
  }

  /** In every run, the version recorded for the backend never goes back. */
  lemma {:induction false} RecordedGrows(es: seq<Entry>, i: nat, j: nat, ver: Ver)
    requires Run(es, ver) && i <= j < |es|
    ensures es[i].bever <= es[j].bever
    decreases j
  {
    if i < j {
      RecordedGrows(es, i, j - 1, ver);
      RunInv(es, j - 1, ver);
      assert StepAt(es, j - 1, ver);
      RecordedStep(es[j - 1], es[j], ver);
    }
  }

  // ---------------------------------------------------------------- what a close makes of a dirty entry

  /** An entry being closed whose data was to be written back first: that is still owed, or the version is recorded. */
  ghost predicate Settles(e: Entry, ver: Ver)
  {
    e.st.DirtyClosing? && NoWrites(e) && (e.owed || ver(e.cache) == e.bever)
  }

  lemma SettlesStep(e: Entry, e': Entry, ver: Ver)
    requires Inv(e, ver) && Step(e, e', ver) && Settles(e, ver)
    ensures e'.cache == e.cache && (e'.st.DirtyClosing? ==> Settles(e', ver))
    ensures e'.st.Closed? ==> ver(e'.cache) == e'.bever
  {
    assert Unfolded(0);
    if closed :| WritebackEnd(e, e', closed, ver) {
      SettlesWriteback(e, e', 0, closed, ver);
    } else if closed :| WritebackFail(e, e', closed) || WritebackOpen(e, e', closed) {
      SettlesWriteback(e, e', 0, closed, ver);
    } else if n: nat :| WritebackCopy(e, e', n) {
      SettlesWriteback(e, e', n, false, ver);
    } else if WritebackBegin(e, e', ver) {
      SettlesWriteback(e, e', 0, false, ver);
    } else if mode :| CloseBegin(e, e', mode, ver) {
    } else if CloseEnd(e, e') {
    }
  }

  lemma SettlesWriteback(e: Entry, e': Entry, n: nat, flag: bool, ver: Ver)
    requires Inv(e, ver) && Settles(e, ver)
    requires || WritebackBegin(e, e', ver) || WritebackOpen(e, e', flag) || WritebackCopy(e, e', n)
             || WritebackFail(e, e', flag) || WritebackEnd(e, e', flag, ver)
    ensures e'.cache == e.cache && !e'.st.Closed? && (e'.st.DirtyClosing? ==> Settles(e', ver))
  {
  }

  /** From moment `i` on, up to moment `j`, the entry is being closed with dirty data. */
  ghost predicate Leaving(es: seq<Entry>, i: nat, j: nat)
  {
    j < |es| && forall k {:trigger es[k]} :: i <= k <= j ==> es[k].st.DirtyClosing?
  }

  lemma {:induction false} SettlesRun(es: seq<Entry>, i: nat, j: nat, ver: Ver)
    requires Run(es, ver) && i <= j && Leaving(es, i, j) && es[i].owed
    ensures Settles(es[j], ver) && es[j].cache == es[i].cache
    decreases j
  {
    RunInv(es, i, ver);
    if i < j {
      SettlesRun(es, i, j - 1, ver);
      RunInv(es, j - 1, ver);
      assert StepAt(es, j - 1, ver);
      SettlesStep(es[j - 1], es[j], ver);
    }
  }

  /**
   * In every run, a dirty entry closed with writing back is closed only once the version of its content is
   * recorded for the backend, and the content is what it was when the close began.
   */
  lemma ClosedIsRecorded(es: seq<Entry>, i: nat, j: nat, mode: CloseMode, ver: Ver)
    requires Run(es, ver) && i < j < |es| - 1 && es[i].st.Dirty? && Leaving(es, i + 1, j) && es[j + 1].st.Closed?
    requires CloseBegin(es[i], es[i + 1], mode, ver) && mode == WritebackAndClose
    ensures es[j + 1].cache == es[i].cache && es[j + 1].bever == ver(es[i].cache)
  {
    SettlesRun(es, i + 1, j, ver);
    RunInv(es, j, ver);
    assert StepAt(es, j, ver);
    SettlesStep(es[j], es[j + 1], ver);
  }

  /** In any other mode, also in the one to write back if needed, a dirty entry is closed with nothing written. */
  lemma ClosedUnwritten(e: Entry, e': Entry, mode: CloseMode, ver: Ver) returns (e'': Entry)
    requires !e.st.Panicked? && Inv(e, ver) && e.st.Dirty? && CloseBegin(e, e', mode, ver)
    requires mode == AbandonAndClose || mode == WritebackIfNeededAndClose
    ensures !WritebackBegin(e', e'', ver) && Step(e', e'', ver) && e''.st.Closed?
    ensures e''.backend == e.backend && e''.bever == e.bever && e''.cache == e.cache
  {
    e'' := To(e', Closed);
    assert CloseEnd(e', e'');
  }

  // ---------------------------------------------------------------- two runs

  lemma RunMore(es: seq<Entry>, e: Entry, ver: Ver)
    requires Run(es, ver) && Step(es[|es| - 1], e, ver)
    ensures Run(es + [e], ver)
  {
    var more := es + [e];
    forall i | 0 <= i < |more| - 1 ensures StepAt(more, i, ver) {
      if i < |es| - 1 {
        assert StepAt(es, i, ver);
        SameStep(es, more, i, ver);
      } else {
        LastStep(es, e, ver);
      }
    }
  }

  lemma LastStep(es: seq<Entry>, e: Entry, ver: Ver)
    requires es != [] && Step(es[|es| - 1], e, ver)
    ensures StepAt(es + [e], |es| - 1, ver)
  {
    assert (es + [e])[|es| - 1] == es[|es| - 1] && (es + [e])[|es|] == e;
  }

  lemma SameStep(es: seq<Entry>, more: seq<Entry>, i: int, ver: Ver)
    requires 0 <= i < |es| - 1 && StepAt(es, i, ver) && es <= more
    ensures StepAt(more, i, ver)
  {
    assert more[i] == es[i] && more[i + 1] == es[i + 1];
  }

  /** Here a blob's version is its length, the cached blob has one byte and the backend blob none. */
  function Length(b: bytes): int { |b| }

  const NEVER_OPENED := Entry(Uninitialized, -1, 0, [1], [], 0, 0, multiset{}, multiset{}, None, Idle, false)

  lemma OpenedDirty() returns (es: seq<Entry>, e: Entry)
    ensures Run(es, Length) && |es| == 2 && es[1] == e
    ensures e == Entry(Dirty, 1, 1, [1], [], 0, 0, multiset{}, multiset{}, None, Idle, false)
  {
    var e0 := NEVER_OPENED;
    e := Initialized(e0, Length);
    assert Run([e0], Length);
    assert Initialize(e0, e, Length);
    RunMore([e0], e, Length);
    es := [e0] + [e];
  }

  /** A run that ends clean and idle, with a version recorded that the backend blob does not have. */
  lemma LostRun() returns (es: seq<Entry>)
    ensures Run(es, Length)
    ensures var e := es[|es| - 1];
            e.st.Clean? && NoWrites(e) && e.backend != e.cache && Length(e.backend) < e.bever == Length(e.cache)
  {
    var e;
    es, e := OpenedDirty();
    var e1, e2, e3, e4 := CloseLost(e, Length);
    RunMore(es, e1, Length);
    RunMore(es + [e1], e2, Length);
    RunMore(es + [e1] + [e2], e3, Length);
    RunMore(es + [e1] + [e2] + [e3], e4, Length);
    es := es + [e1] + [e2] + [e3] + [e4];
  }

  /** A write begun during a writeback, and the end of that writeback before the write has landed. */
  lemma Outlive(e: Entry, w: Edit) returns (e1: Entry, e2: Entry, e3: Entry, e4: Entry, e5: Entry)
    requires e == Entry(Dirty, 1, 1, [1], [], 0, 1, multiset{}, multiset{}, None, Idle, false) && w == PWrite([2], 0)
    ensures Step(e, e1, Length) && Step(e1, e2, Length) && Step(e2, e3, Length) && Step(e3, e4, Length)
    ensures Step(e4, e5, Length)
    ensures e5 == Entry(Dirty, 1, 1, [1], [1], 1, 1, multiset{w}, multiset{}, None, Idle, false)
  {
    e1 := WritingBack(e, Length);
    assert WritebackBegin(e, e1, Length);
    e2 := Begun(e1, w);
    assert WriteBegin(e1, e2, w);
    e3 := e2.(backend := [], wb := Some(e2.wb.value.(out := Some(Output(1, [], true)))));
    assert WritebackOpen(e2, e3, true);
    var one: bytes := [1];
    assert [] + one[0..1] == one;
    e4 := e3.(backend := one, wb := Some(e3.wb.value.(out := Some(Output(1, one, true)))));
    assert WritebackCopy(e3, e4, 1);
    e5 := WrittenBack(e4, true, Length);
    assert WritebackEnd(e4, e5, true, Length);
    assert multiset{} + multiset{w} == multiset{w};
  }

  /** A run of one writer and one writeback that panics. */
  lemma OutlivedRun() returns (es: seq<Entry>)
    ensures Run(es, Length) && es[|es| - 1].st.Panicked?
  {
    var w := PWrite([2], 0);
    var e;
    es, e := OpenedDirty();
    var e0 := e.(handles := 1);
    assert OpenHandle(e, e0);
    RunMore(es, e0, Length);
    es := es + [e0];
    var e1, e2, e3, e4, e5 := Outlive(e0, w);
    RunMore(es, e1, Length);
    RunMore(es + [e1], e2, Length);
    RunMore(es + [e1] + [e2], e3, Length);
    RunMore(es + [e1] + [e2] + [e3], e4, Length);
    RunMore(es + [e1] + [e2] + [e3] + [e4], e5, Length);
    es := es + [e1] + [e2] + [e3] + [e4] + [e5];
    var e6 := e5.(cache := Edited(e5.cache, w), begun := e5.begun - multiset{w}, applied := e5.applied + multiset{w});
    assert WriteApply(e5, e6, w);
    RunMore(es, e6, Length);
    var e7 := e6.(applied := e6.applied - multiset{w}, st := Panicked);
    assert WriteEnd(e6, e7, w);
    RunMore(es + [e6], e7, Length);
    es := es + [e6] + [e7];
  }

  // ---------------------------------------------------------------- reading

  /** The blob as its readers are to see it: until it is fetched, that of the backend. */
  function Logical(e: Entry): bytes { if e.st.Invalidating? then e.backend else e.cache }

  /** An edit reaches the cached blob. */
  ghost predicate Lands(e: Entry, e': Entry) { exists w :: WriteApply(e, e', w) }

  lemma LogicalFetch(e: Entry, e': Entry, n: nat, ver: Ver)
    requires !e.st.Panicked? && Inv(e, ver) && Listed(e.st) && Listed(e'.st)
    requires FetchOpen(e, e') || FetchWrite(e, e', n) || FetchMark(e, e') || FetchFail(e, e')
    ensures Logical(e') == Logical(e) && (e.st.Invalidating? ==> e.validlen <= e'.validlen)
  {
    if FetchMark(e, e') && |e.cache| == e.bloblen { assert e.cache == e.backend; }
  }

  lemma LogicalWriteback(e: Entry, e': Entry, n: nat, flag: bool, ver: Ver)
    requires !e.st.Panicked? && Inv(e, ver)
    requires WritebackBegin(e, e', ver) || WritebackOpen(e, e', flag) || WritebackCopy(e, e', n)
    ensures Logical(e') == Logical(e) && !e.st.Invalidating? && !e'.st.Invalidating?
  {
  }

  lemma LogicalWrittenBack(e: Entry, e': Entry, flag: bool, ver: Ver)
    requires !e.st.Panicked? && Inv(e, ver) && (WritebackFail(e, e', flag) || WritebackEnd(e, e', flag, ver))
    ensures Logical(e') == Logical(e) && !e.st.Invalidating? && !e'.st.Invalidating?
  {
  }

  lemma LogicalBegin(e: Entry, e': Entry, w: Edit, ver: Ver)
    requires !e.st.Panicked? && Inv(e, ver) && Listed(e'.st) && WriteBegin(e, e', w)
    ensures Logical(e') == Logical(e) && !e.st.Invalidating? && !e'.st.Invalidating?
  {
  }

  lemma LogicalEnd(e: Entry, e': Entry, w: Edit, ver: Ver)
    requires !e.st.Panicked? && Inv(e, ver) && Listed(e'.st) && WriteEnd(e, e', w)
    ensures Logical(e') == Logical(e) && !e.st.Invalidating? && !e'.st.Invalidating?
  {
  }

  lemma LogicalHandle(e: Entry, e': Entry, mode: CloseMode, ver: Ver)
    requires !e.st.Panicked? && Listed(e.st) && Listed(e'.st)
    requires || Initialize(e, e', ver) || OpenHandle(e, e') || CloseHandle(e, e') || CloseBegin(e, e', mode, ver)
             || CloseEnd(e, e')
    ensures Logical(e') == Logical(e) && e.st.Invalidating? == e'.st.Invalidating? && e.validlen == e'.validlen
  {
  }

  /** A read of the first `r` bytes has passed its wait, now or before. */
  ghost predicate MayRead(e: Entry, r: nat)
  {
    Listed(e.st) && (e.st.Invalidating? ==> r <= e.validlen)
  }

  /** Nothing but an edit reaching the cached blob changes what readers are to see, or how much they may read. */
  lemma LogicalStep(e: Entry, e': Entry, r: nat, ver: Ver)
    requires Inv(e, ver) && Step(e, e', ver) && MayRead(e, r) && Listed(e'.st) && !Lands(e, e')
    ensures Logical(e') == Logical(e) && MayRead(e', r)
  {
    assert Unfolded(0);
    if w :| WriteApply(e, e', w) {
      assert Lands(e, e');
    } else if FetchOpen(e, e') || FetchMark(e, e') || FetchFail(e, e') {
      LogicalFetch(e, e', 0, ver);
    } else if n: nat :| FetchWrite(e, e', n) {
      LogicalFetch(e, e', n, ver);
    } else if WritebackBegin(e, e', ver) {
      LogicalWriteback(e, e', 0, false, ver);
    } else if flag :| WritebackOpen(e, e', flag) {
      LogicalWriteback(e, e', 0, flag, ver);
    } else if flag :| WritebackFail(e, e', flag) || WritebackEnd(e, e', flag, ver) {
      LogicalWrittenBack(e, e', flag, ver);
    } else if n: nat :| WritebackCopy(e, e', n) {
      LogicalWriteback(e, e', n, false, ver);
    } else if w :| WriteBegin(e, e', w) {
      LogicalBegin(e, e', w, ver);
    } else if w :| WriteEnd(e, e', w) {
      LogicalEnd(e, e', w, ver);
    } else if mode :| CloseBegin(e, e', mode, ver) {
      LogicalHandle(e, e', mode, ver);
    } else {
      LogicalHandle(e, e', AbandonAndClose, ver);
    }
  }

  /**
   * An edit that lands changes what readers are to see, byte by byte: a write puts its bytes at its offset,
   * after zeros if need be, and leaves the others; a truncation keeps what it can and fills up with zeros.
   */
  lemma LandsLogical(e: Entry, e': Entry, w: Edit, ver: Ver)
    requires !e.st.Panicked? && Inv(e, ver) && WriteApply(e, e', w)
    ensures var l, l' := Logical(e), Logical(e');
            match w
            case PWrite(p, off) =>
              && |l'| == (if p == [] then |l| else Max(|l|, off + |p|))
              && forall x {:trigger l'[x]} :: 0 <= x < |l'| ==>
                   l'[x] == if off <= x < off + |p| then p[x - off] else if x < |l| then l[x] else 0
            case Truncate(n) =>
              && |l'| == n
              && forall x {:trigger l'[x]} :: 0 <= x < n ==> l'[x] == if x < |l| then l[x] else 0
  {
    assert w in e.begun;
    var l, l' := Logical(e), Logical(e');
    if w.PWrite? {
      forall x | 0 <= x < |l'|
        ensures l'[x] == if w.offset <= x < w.offset + |w.p| then w.p[x - w.offset] else if x < |l| then l[x] else 0
      {
        assert l'[x] == At(l', x);
      }
    }
  }

  /** What a read that has passed its wait finds at once. */
  lemma ReadSees(e: Entry, offset: nat, len: nat, ver: Ver)
    requires Inv(e, ver) && Waited(e, Min(offset + len, e.bloblen)) == Passed
    ensures var r := Max(0, Min(offset + len, e.bloblen));
            MayRead(e, r) && (r <= |Logical(e)| ==> r <= |e.cache| && e.cache[..r] == Logical(e)[..r])
  {
  }

  /** Between moments `i` and `j` of a run the entry stays open, and no edit reaches the cached blob. */
  ghost predicate Quiet(es: seq<Entry>, i: nat, j: nat)
  {
    && i <= j < |es|
    && (forall k {:trigger es[k]} :: i <= k <= j ==> Listed(es[k].st))
    && (forall k {:trigger LandsAt(es, k)} :: i <= k < j ==> !LandsAt(es, k))
  }

  ghost predicate LandsAt(es: seq<Entry>, k: int)
    requires 0 <= k < |es| - 1
  {
    Lands(es[k], es[k + 1])
  }

  lemma QuietStep(es: seq<Entry>, j: nat, r: nat, ver: Ver)
    requires Run(es, ver) && 0 < j < |es| && MayRead(es[j - 1], r) && Listed(es[j].st) && !LandsAt(es, j - 1)
    ensures Logical(es[j]) == Logical(es[j - 1]) && MayRead(es[j], r)
  {
    RunInv(es, j - 1, ver);
    assert StepAt(es, j - 1, ver);
    LogicalStep(es[j - 1], es[j], r, ver);
  }

  lemma {:induction false} QuietSteps(es: seq<Entry>, i: nat, j: nat, r: nat, ver: Ver)
    requires Run(es, ver) && Quiet(es, i, j) && MayRead(es[i], r)
    ensures MayRead(es[j], r) && Logical(es[j]) == Logical(es[i])
    decreases j
  {
    if i < j {
      QuietSteps(es, i, j - 1, r, ver);
      assert !LandsAt(es, j - 1);
      QuietStep(es, j, r, ver);
    }
  }

  /**
   * A read looks at the cached blob some time after its wait is over. In every run, as long as the entry
   * stays open and no edit lands in between, what it then finds is what readers were to see, although the
   * rest of the blob may still be on its way.
   */
  lemma ReadLater(es: seq<Entry>, i: nat, j: nat, r: nat, ver: Ver)
    requires Run(es, ver) && Quiet(es, i, j) && MayRead(es[i], r) && r <= |Logical(es[i])|
    ensures r <= |es[j].cache| && es[j].cache[..r] == Logical(es[i])[..r]
  {
    QuietSteps(es, i, j, r, ver);
    RunInv(es, j, ver);
    MayReadSees(es[j], r, ver);
  }

  lemma MayReadSees(e: Entry, r: nat, ver: Ver)
    requires Inv(e, ver) && MayRead(e, r) && r <= |Logical(e)|
    ensures r <= |e.cache| && e.cache[..r] == Logical(e)[..r]
  {
  }

  // ---------------------------------------------------------------- the recorded length

  /** The recorded length is that of the cached blob, counting the one edit still to land. */
  ghost predicate Sized(e: Entry)
  {
    Listed(e.st) && !e.st.Invalidating? ==>
      && (e.begun == multiset{} ==> e.bloblen == |e.cache|)
      && (forall w {:trigger Edited(e.cache, w)} :: e.begun == multiset{w} ==> e.bloblen == |Edited(e.cache, w)|)
  }

  /** An older cached blob is taken for the empty one of the backend. */
  ghost predicate TakenForEmpty(e: Entry, e': Entry, ver: Ver)
  {
    e' == Initialized(e, ver) && ver(e.cache) < e.bever && e.backend == [] && e.cache != []
  }

  /** At most one edit is on its way, and the entry is not opened on an old blob for an empty one. */
  ghost predicate Plain(e: Entry, e': Entry, ver: Ver)
  {
    |e'.begun| <= 1 && !TakenForEmpty(e, e', ver)
  }

  lemma OnlyOne(ws: multiset<Edit>, w: Edit)
    requires |ws| <= 1 && w in ws
    ensures ws == multiset{w}
  {
    assert |ws - multiset{w}| == |ws| - 1;
    assert ws == (ws - multiset{w}) + multiset{w};
  }

  lemma SizedBegin(e: Entry, e': Entry, w: Edit)
    requires !e.st.Panicked? && Sized(e) && |e'.begun| <= 1 && WriteBegin(e, e', w) && Listed(e'.st)
    ensures Sized(e')
  {
    assert e'.begun == e.begun + multiset{w};
    OnlyOne(e'.begun, w);
    assert e.begun == multiset{};
    assert Listed(e.st) && !e.st.Invalidating? && !Idles(e, w);
    SizedLength(e.cache, e.bloblen, w);
  }

  /** The length recorded when an edit begins is the one it leaves. */
  lemma SizedLength(cache: bytes, bloblen: int, w: Edit)
    requires bloblen == |cache| && (w.PWrite? ==> w.p != [])
    ensures |Edited(cache, w)| == if w.Truncate? || Right(w) > bloblen then Right(w) else bloblen
  {
  }

  lemma SizedApply(e: Entry, e': Entry, w: Edit)
    requires Sized(e) && |e.begun| <= 1 && WriteApply(e, e', w)
    ensures Sized(e')
  {
    OnlyOne(e.begun, w);
    assert Listed(e.st) && !e.st.Invalidating? ==> e.bloblen == |Edited(e.cache, w)|;
  }

  lemma SizedEnd(e: Entry, e': Entry, w: Edit, ver: Ver)
    requires !e.st.Panicked? && Inv(e, ver) && Sized(e) && WriteEnd(e, e', w)
    ensures Sized(e')
  {
    assert e'.cache == e.cache && e'.begun == e.begun && e'.bloblen == e.bloblen;
    assert Listed(e'.st) ==> Listed(e.st) && !e.st.Invalidating?;
  }

  lemma SizedWriteback(e: Entry, e': Entry, n: nat, flag: bool, ver: Ver)
    requires !e.st.Panicked? && Inv(e, ver) && Sized(e)
    requires || WritebackBegin(e, e', ver) || WritebackOpen(e, e', flag) || WritebackCopy(e, e', n)
             || WritebackFail(e, e', flag) || WritebackEnd(e, e', flag, ver)
    ensures Sized(e')
  {
    assert e'.cache == e.cache && e'.begun == e.begun && e'.bloblen == e.bloblen;
    assert Listed(e'.st) ==> Listed(e.st) && !e.st.Invalidating?;
  }

  lemma SizedFetch(e: Entry, e': Entry, n: nat, ver: Ver)
    requires !e.st.Panicked? && Inv(e, ver) && Sized(e)
    requires FetchOpen(e, e') || FetchWrite(e, e', n) || FetchMark(e, e') || FetchFail(e, e')
    ensures Sized(e')
  {
    if FetchMark(e, e') { FetchDone(e, e', ver); }
  }

  lemma SizedOpen(e: Entry, e': Entry, ver: Ver)
    requires (e.st.Uninitialized? || e.st.Closed?) && Inv(e, ver) && Initialize(e, e', ver) && Plain(e, e', ver)
    ensures Sized(e')
  {
    OpenedState(e, Initialized(e, ver), ver);
  }

  lemma SizedHandle(e: Entry, e': Entry)
    requires Sized(e) && (OpenHandle(e, e') || CloseHandle(e, e') || CloseEnd(e, e'))
    ensures Sized(e')
  {
  }

  lemma SizedClose(e: Entry, e': Entry, mode: CloseMode, ver: Ver)
    requires !e.st.Panicked? && Sized(e) && CloseBegin(e, e', mode, ver)
    ensures Sized(e')
  {
    if e.st.Uninitialized? {
      OpenedState(e, Initialized(e, ver), ver);
      assert Listed(e'.st) ==> e'.st.Invalidating?;
    } else {
      assert Listed(e'.st) ==> e' == e;
    }
  }

  lemma SizedStep(e: Entry, e': Entry, ver: Ver)
    requires Inv(e, ver) && Step(e, e', ver) && Sized(e) && |e.begun| <= 1 && Plain(e, e', ver)
    ensures Sized(e')
  {
    assert Unfolded(0);
    if w :| WriteBegin(e, e', w) {
      if Listed(e'.st) { SizedBegin(e, e', w); }
    } else if w :| WriteApply(e, e', w) {
      SizedApply(e, e', w);
    } else if w :| WriteEnd(e, e', w) {
      SizedEnd(e, e', w, ver);
    } else if FetchOpen(e, e') || FetchMark(e, e') || FetchFail(e, e') {
      SizedFetch(e, e', 0, ver);
    } else if n: nat :| FetchWrite(e, e', n) {
      SizedFetch(e, e', n, ver);
    } else if n: nat :| WritebackCopy(e, e', n) {
      SizedWriteback(e, e', n, false, ver);
    } else if flag :| WritebackOpen(e, e', flag) || WritebackFail(e, e', flag) || WritebackEnd(e, e', flag, ver) {
      SizedWriteback(e, e', 0, flag, ver);
    } else if WritebackBegin(e, e', ver) {
      SizedWriteback(e, e', 0, false, ver);
    } else if mode :| CloseBegin(e, e', mode, ver) {
      SizedClose(e, e', mode, ver);
    } else if Initialize(e, e', ver) {
      SizedOpen(e, e', ver);
    } else {
      SizedHandle(e, e');
    }
  }

  ghost predicate PlainAt(es: seq<Entry>, i: int, ver: Ver)
    requires 0 <= i < |es| - 1
  {
    Plain(es[i], es[i + 1], ver)
  }

  lemma {:induction false} SizedRun(es: seq<Entry>, n: nat, ver: Ver)
    requires Run(es, ver) && n < |es| && forall i {:trigger PlainAt(es, i, ver)} :: 0 <= i < n ==> PlainAt(es, i, ver)
    ensures Sized(es[n]) && |es[n].begun| <= 1
  {
    if n > 0 {
      SizedRun(es, n - 1, ver);
      RunInv(es, n - 1, ver);
      assert StepAt(es, n - 1, ver) && PlainAt(es, n - 1, ver);
      SizedAt(es, n - 1, ver);
    }
  }

  lemma SizedAt(es: seq<Entry>, i: int, ver: Ver)
    requires 0 <= i < |es| - 1 && StepAt(es, i, ver) && PlainAt(es, i, ver) && Inv(es[i], ver)
    requires Sized(es[i]) && |es[i].begun| <= 1
    ensures Sized(es[i + 1]) && |es[i + 1].begun| <= 1
  {
    SizedStep(es[i], es[i + 1], ver);
  }

  /**
   * In every run in which edits land one at a time, and which never takes an old blob for an empty one, the
   * recorded length of an open entry with no edit on its way is that of the blob its readers are to see.
   */
  lemma SizeIsLength(es: seq<Entry>, n: nat, ver: Ver)
    requires Run(es, ver) && n < |es| && forall i {:trigger PlainAt(es, i, ver)} :: 0 <= i < n ==> PlainAt(es, i, ver)
    requires Listed(es[n].st) && es[n].begun == multiset{}
    ensures es[n].bloblen == |Logical(es[n])|
  {
    SizedRun(es, n, ver);
    RunInv(es, n, ver);
  }
}
