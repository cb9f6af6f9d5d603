/**
 * `sinsp_appevtparser` (userspace/libsinsp/appevts.h): the parser object with
 * its growing storage, `parse` as a method that runs the scanners over that
 * storage, the packing of a parsed record into a partial event, and
 * `process_event_data`, which buffers incomplete fragments and pairs every
 * exit event with the enter event it closes.
 */
module AppEvtParser {
  import opened AppEvtScan
  import opened AppEvtRecord
  import opened AppEvtPack

  /**
   * The part of `sinsp` the parser works with: the tracking switch (which
   * the parser only reads), the list of enter events still waiting for their
   * exit, and the pool of free partial events (a last-in first-out stack of
   * distinct preallocated events in the source; here the set of them, so
   * that which one `pop` returns is left open).
   */
  class Inspector {
    const trackAppEvtsState: bool
    var partialAppEvtsList: seq<PartialAppEvt>
    var partialAppEvtsPool: set<PartialAppEvt>

    /** Tracking switched on or off, nothing pending, and the free events `pool`, no two sharing a storage. */
    constructor (track: bool, pool: set<PartialAppEvt>)
      requires Unshared(pool)
      ensures trackAppEvtsState == track && partialAppEvtsList == [] && partialAppEvtsPool == pool
      ensures Valid()
    {
      trackAppEvtsState := track;
      partialAppEvtsList := [];
      partialAppEvtsPool := pool;
    }

    /** The events the inspector holds, pending or free. */
    ghost function Events(): set<PartialAppEvt>
      reads this`partialAppEvtsList, this`partialAppEvtsPool
    {
      (set x | x in partialAppEvtsList) + partialAppEvtsPool
    }

    /**
     * Each event is in one place: the list holds none twice and none of the
     * pool (lines 246-249 and 274-275 only move events between the two), and
     * no two events, pending or free, share a storage.
     */
    ghost predicate Valid()
      reads this`partialAppEvtsList, this`partialAppEvtsPool
      reads partialAppEvtsList`tags, partialAppEvtsList`argNames, partialAppEvtsList`argVals
      reads partialAppEvtsPool`tags, partialAppEvtsPool`argNames, partialAppEvtsPool`argVals
    {
      Distinct(partialAppEvtsList) && (forall x :: x in partialAppEvtsList ==> x !in partialAppEvtsPool) &&
      Unshared(Events())
    }

    /**
     * The choice `m_partial_appevts_pool->pop()` makes: some free event of the
     * pool, or null when it is empty. `Take` then removes it.
     */
    method Peek() returns (pae: PartialAppEvt?)
      ensures partialAppEvtsPool == {} <==> pae == null
      ensures pae != null ==> pae in partialAppEvtsPool
    {
      if partialAppEvtsPool == {} {
        return null;
      }
      pae :| pae in partialAppEvtsPool;
    }

    /** The removal `m_partial_appevts_pool->pop()` makes: `pae` is no longer free. */
    method Take(pae: PartialAppEvt)
      modifies this`partialAppEvtsPool
      ensures partialAppEvtsPool == old(partialAppEvtsPool) - {pae}
      ensures forall e :: e in partialAppEvtsList ==> e.Signature() == old(e.Signature())
    {
      partialAppEvtsPool := partialAppEvtsPool - {pae};
    }

    /**
     * Lines 274-275: the `i`-th pending event pushed back into the pool and
     * erased from the list. The events stay each in one place.
     */
    method Release(i: nat)
      requires Valid() && i < |partialAppEvtsList|
      modifies this`partialAppEvtsList, this`partialAppEvtsPool
      ensures Valid() && Events() == old(Events()) && unchanged(Events())
      ensures partialAppEvtsList == old(partialAppEvtsList[..i] + partialAppEvtsList[i + 1..])
      ensures partialAppEvtsPool == old(partialAppEvtsPool) + {old(partialAppEvtsList[i])}
    {
      var list := partialAppEvtsList;
      partialAppEvtsPool := partialAppEvtsPool + {list[i]};
      partialAppEvtsList := list[..i] + list[i + 1..];
      EraseDistinct(list, i);
    }
  }

  /**
   * The tracking state a step starts from: the pending list, what `compare`
   * looks at in each of its events, the pool, the enter event and the exit
   * event's time stamp.
   */
  datatype TrackState = TrackState(list: seq<PartialAppEvt>, sigs: seq<(nat, seq<char>)>, pool: set<PartialAppEvt>,
                                   enter: PartialAppEvt?, time: nat)

  /** No event occurs twice in `list`. */
  ghost predicate Distinct(list: seq<PartialAppEvt>) {
    forall i, j :: 0 <= i < j < |list| ==> list[i] != list[j]
  }

  /** Erasing the event at `i` from a list without repeats leaves the others, still without repeats. */
  lemma {:induction false} EraseDistinct(list: seq<PartialAppEvt>, i: nat)
    requires Distinct(list) && i < |list|
    ensures var rest := list[..i] + list[i + 1..];
      Distinct(rest) && forall x :: x in rest <==> x in list && x != list[i]
  {
    var rest := list[..i] + list[i + 1..];
    assert forall k :: 0 <= k < |rest| ==> rest[k] == list[if k < i then k else k + 1];
    forall x | x in list && x != list[i] ensures x in rest {
      var k :| 0 <= k < |list| && list[k] == x;
      assert rest[if k < i then k else k - 1] == x;
    }
  }

  /**
   * Lines 246-249 for the enter event `pae` taken from the pool: packed with
   * the record `f` of `src`, time-stamped and pushed in front of the list.
   * The packing is done last here rather than first; it touches neither the
   * list nor the time stamp, so the end state is the same. No event of
   * `others` comes to share a storage with `pae`, nor changes what `compare`
   * looks at.
   */
  method Start(insp: Inspector, pae: PartialAppEvt, src: array<char>, f: Fields, ts: nat, ghost others: set<PartialAppEvt>)
    requires Within(src[..], f.tags, f.tagLens) && Within(src[..], f.argNames, f.argNameLens)
    requires Within(src[..], f.argVals, f.argValLens) && Totals(f) && |f.argVals| <= |f.argNames|
    requires pae !in others && ApartFrom(pae, others)
    modifies insp`partialAppEvtsList, pae, pae.tags.storage, pae.argNames.storage, pae.argVals.storage
    ensures insp.partialAppEvtsList == [pae] + old(insp.partialAppEvtsList) && pae.Holds(src[..], f) && pae.time == ts
    ensures ApartFrom(pae, others) && unchanged(others)
    ensures forall x :: x in others ==> x.Signature() == old(x.Signature())
  {
    insp.partialAppEvtsList := [pae] + insp.partialAppEvtsList;
    Reinit(pae, src, f, ts, others);
  }

  /**
   * Lines 245-246 seen from the other events: `pae` packed and time-stamped,
   * its storages its own or new, and no other event changed.
   */
  method Reinit(pae: PartialAppEvt, src: array<char>, f: Fields, ts: nat, ghost others: set<PartialAppEvt>)
    requires Within(src[..], f.tags, f.tagLens) && Within(src[..], f.argNames, f.argNameLens)
    requires Within(src[..], f.argVals, f.argValLens) && Totals(f) && |f.argVals| <= |f.argNames|
    requires pae !in others && ApartFrom(pae, others)
    modifies pae, pae.tags.storage, pae.argNames.storage, pae.argVals.storage
    ensures pae.Holds(src[..], f) && pae.time == ts
    ensures ApartFrom(pae, others) && unchanged(others)
    ensures forall x :: x in others ==> x.Signature() == old(x.Signature())
  {
    pae.time := ts;
    pae.Pack(src, f);
    forall x | x in others
      ensures x.Signature() == old(x.Signature())
    {
      assert old(ApartStorages(x, pae));
    }
  }

  /**
   * The bookkeeping once `pae` is pushed in front of the list `list0`, the
   * pool being `pool0`: the events are still each in one place, and the exit
   * event `exitPae` is still out of them and shares no storage with them.
   */
  lemma Adopt(insp: Inspector, pae: PartialAppEvt, exitPae: PartialAppEvt, list0: seq<PartialAppEvt>, pool0: set<PartialAppEvt>)
    requires insp.partialAppEvtsList == [pae] + list0 && insp.partialAppEvtsPool == pool0
    requires Distinct(list0) && pae !in list0 && pae !in pool0 && forall x :: x in list0 ==> x !in pool0
    requires exitPae !in list0 && exitPae !in pool0 && exitPae != pae
    requires var others := (set x | x in list0) + pool0 + {exitPae}; Unshared(others) && ApartFrom(pae, others)
    ensures insp.Valid() && ApartFrom(exitPae, insp.Events())
  {
    UnsharedJoin((set x | x in list0) + pool0 + {exitPae}, pae);
    var list := insp.partialAppEvtsList;
    forall i, j | 0 <= i < j < |list| ensures list[i] != list[j] {
      assert list[j] == list0[j - 1];
      if i > 0 {
        assert list[i] == list0[i - 1];
      }
    }
    assert insp.Events() <= (set x | x in list0) + pool0 + {exitPae} + {pae};
  }

  /**
   * Lines 240-249 once `pae` is out of the pool: packed, time-stamped and
   * pushed in front of the list. The events stay valid, the exit event
   * `exitPae` out of them and sharing no storage with them, and the pending
   * events are left alone.
   */
  method Enter(insp: Inspector, pae: PartialAppEvt, exitPae: PartialAppEvt, src: array<char>, f: Fields, ts: nat)
    requires Within(src[..], f.tags, f.tagLens) && Within(src[..], f.argNames, f.argNameLens)
    requires Within(src[..], f.argVals, f.argValLens) && Totals(f) && |f.argVals| <= |f.argNames|
    requires Distinct(insp.partialAppEvtsList) && forall x :: x in insp.partialAppEvtsList ==> x !in insp.partialAppEvtsPool
    requires pae !in insp.Events() && exitPae !in insp.Events() && exitPae != pae
    requires Unshared(insp.Events() + {exitPae}) && ApartFrom(pae, insp.Events() + {exitPae})
    modifies insp`partialAppEvtsList, pae, pae.tags.storage, pae.argNames.storage, pae.argVals.storage
    ensures insp.partialAppEvtsList == [pae] + old(insp.partialAppEvtsList) && pae.Holds(src[..], f) && pae.time == ts
    ensures insp.Valid() && ApartFrom(exitPae, insp.Events())
    ensures forall e :: e in old(insp.partialAppEvtsList) ==> e.Signature() == old(e.Signature())
  {
    ghost var list0, pool0 := insp.partialAppEvtsList, insp.partialAppEvtsPool;
    ghost var others := insp.Events() + {exitPae};
    Start(insp, pae, src, f, ts, others);
    Adopt(insp, pae, exitPae, list0, pool0);
  }

  /**
   * Lines 239-249 for the record `f` of `src`: an event taken out of the pool
   * when there is one and entered.
   */
  method Enroll(insp: Inspector, pae: PartialAppEvt, exitPae: PartialAppEvt, src: array<char>, f: Fields, ts: nat)
    requires Within(src[..], f.tags, f.tagLens) && Within(src[..], f.argNames, f.argNameLens)
    requires Within(src[..], f.argVals, f.argValLens) && Totals(f) && |f.argVals| <= |f.argNames|
    requires insp.Valid() && pae in insp.partialAppEvtsPool
    requires exitPae !in insp.partialAppEvtsList && exitPae !in insp.partialAppEvtsPool && ApartFrom(exitPae, insp.Events())
    modifies insp`partialAppEvtsList, insp`partialAppEvtsPool, pae, pae.tags.storage, pae.argNames.storage, pae.argVals.storage
    ensures insp.Valid() && exitPae !in insp.partialAppEvtsList && exitPae !in insp.partialAppEvtsPool
    ensures ApartFrom(exitPae, insp.Events())
    ensures insp.partialAppEvtsPool == old(insp.partialAppEvtsPool) - {pae}
    ensures insp.partialAppEvtsList == [pae] + old(insp.partialAppEvtsList) && pae.Holds(src[..], f) && pae.time == ts
    ensures forall e :: e in old(insp.partialAppEvtsList) ==> e.Signature() == old(e.Signature())
  {
    ghost var all := insp.Events();
    UnsharedJoin(all, exitPae);
    insp.Take(pae);
    assert insp.Events() + {exitPae} <= all + {exitPae} && pae in all + {exitPae};
    Enter(insp, pae, exitPae, src, f, ts);
  }

  /** Adding an event that shares no storage with any of `events` keeps them separate. */
  lemma UnsharedJoin(events: set<PartialAppEvt>, x: PartialAppEvt)
    requires Unshared(events) && ApartFrom(x, events)
    ensures Unshared(events + {x})
  {
    forall a, b | a in events + {x} && b in events + {x} && a != b ensures ApartStorages(a, b) {
      if a == x {
        assert ApartStorages(x, b);
      } else if b == x {
        assert ApartStorages(x, a);
      }
    }
  }

  /**
   * Lines 257-281 done for the exit event `key`, from the list `list0`, the
   * pool `pool0` and the exit event's time stamp `time0`: when `key` matches
   * an event of the list, the first such event is `enter`, unlinked from the
   * list and back in the pool, and `key` has the time stamp `ts`; otherwise
   * `enter` is null and nothing else changed.
   */
  ghost predicate Closed(insp: Inspector, key: PartialAppEvt, ts: nat, list0: seq<PartialAppEvt>, pool0: set<PartialAppEvt>,
                         time0: nat, enter: PartialAppEvt?, i: nat)
    reads insp`partialAppEvtsList, insp`partialAppEvtsPool, key`time
  {
    if i >= |list0| then
      enter == null && insp.partialAppEvtsList == list0 && insp.partialAppEvtsPool == pool0 && key.time == time0
    else
      enter == list0[i] && insp.partialAppEvtsList == list0[..i] + list0[i + 1..] &&
      insp.partialAppEvtsPool == pool0 + {list0[i]} && key.time == ts
  }

  /**
   * Line 255 seen from the inspector: the exit event `key`, neither pending
   * nor free and sharing no storage with them, packed with the record `f`
   * of `src`. It still shares none, and the pending events keep their ids
   * and tags.
   */
  method Reload(insp: Inspector, key: PartialAppEvt, src: array<char>, ghost buf: seq<char>, f: Fields)
    requires src[..] == buf && Within(buf, f.tags, f.tagLens) && Within(buf, f.argNames, f.argNameLens)
    requires Within(buf, f.argVals, f.argValLens) && Totals(f) && |f.argVals| <= |f.argNames|
    requires insp.Valid() && key !in insp.partialAppEvtsList && key !in insp.partialAppEvtsPool && ApartFrom(key, insp.Events())
    modifies key, key.tags.storage, key.argNames.storage, key.argVals.storage
    ensures key.Holds(buf, f) && key.time == old(key.time)
    ensures key.tags.storage == old(key.tags.storage) || fresh(key.tags.storage)
    ensures key.argNames.storage == old(key.argNames.storage) || fresh(key.argNames.storage)
    ensures key.argVals.storage == old(key.argVals.storage) || fresh(key.argVals.storage)
    ensures insp.Valid() && ApartFrom(key, insp.Events())
    ensures forall e :: e in insp.partialAppEvtsList ==> e.Signature() == old(e.Signature())
    ensures Signatures(insp.partialAppEvtsList) == old(Signatures(insp.partialAppEvtsList))
  {
    key.Pack(src, f);
    forall e | e in insp.partialAppEvtsList ensures e.Signature() == old(e.Signature()) {
      assert old(ApartStorages(key, e));
    }
  }

  /** Lines 253-281: the exit event `key` packed with the record `f` of `src`, then the search for the enter event it closes. */
  method Exit(p: AppEvtParser, insp: Inspector, key: PartialAppEvt, src: array<char>, ghost buf: seq<char>, f: Fields, ts: nat)
    requires src[..] == buf && Within(buf, f.tags, f.tagLens) && Within(buf, f.argNames, f.argNameLens)
    requires Within(buf, f.argVals, f.argValLens) && Totals(f) && |f.argVals| <= |f.argNames|
    requires insp.Valid() && key !in insp.partialAppEvtsList && key !in insp.partialAppEvtsPool && ApartFrom(key, insp.Events())
    modifies p`enterPae, insp`partialAppEvtsList, insp`partialAppEvtsPool
    modifies key, key.tags.storage, key.argNames.storage, key.argVals.storage
    ensures key.Holds(buf, f)
    ensures insp.Valid() && key !in insp.partialAppEvtsList && key !in insp.partialAppEvtsPool && ApartFrom(key, insp.Events())
    ensures Closed(insp, key, ts, old(insp.partialAppEvtsList), old(insp.partialAppEvtsPool), old(key.time), p.enterPae,
                   FirstAgreeing(key.Signature(), old(Signatures(insp.partialAppEvtsList))))
    ensures forall e :: e in old(insp.partialAppEvtsList) ==> e.Signature() == old(e.Signature())
  {
    Reload(insp, key, src, buf, f);
    Close(p, insp, key, ts, buf, f);
  }

  /**
   * Lines 257-281 for the exit event `key`, which is neither pending nor
   * free, shares no storage with them and holds the record `f` of `buf`: the
   * search, then the enter event found time-stamped, linked, pushed back into
   * the pool and erased from the list. Each event is still in one place, and the exit
   * event and the pending events keep what `compare` looks at.
   */
  method Close(p: AppEvtParser, insp: Inspector, key: PartialAppEvt, ts: nat, ghost buf: seq<char>, ghost f: Fields)
    requires key.Holds(buf, f)
    requires insp.Valid() && key !in insp.partialAppEvtsList && key !in insp.partialAppEvtsPool && ApartFrom(key, insp.Events())
    modifies p`enterPae, insp`partialAppEvtsList, insp`partialAppEvtsPool, key`time
    ensures key.Holds(buf, f)
    ensures insp.Valid() && key !in insp.partialAppEvtsList && key !in insp.partialAppEvtsPool && ApartFrom(key, insp.Events())
    ensures Closed(insp, key, ts, old(insp.partialAppEvtsList), old(insp.partialAppEvtsPool), old(key.time), p.enterPae,
                   FirstAgreeing(key.Signature(), old(Signatures(insp.partialAppEvtsList))))
    ensures forall e :: e in old(insp.partialAppEvtsList) ==> e.Signature() == old(e.Signature())
  {
    var i := Find(key, insp.partialAppEvtsList);
    Link(p, insp, key, ts, i, buf, f);
  }

  /**
   * Lines 261-280 once the search stopped at `i`: when the exit event `key`
   * matched the `i`-th pending event, `key` time-stamped and that event
   * linked as the enter event, pushed back into the pool and erased from the
   * list; when the search ran past the end, no enter event.
   */
  method Link(p: AppEvtParser, insp: Inspector, key: PartialAppEvt, ts: nat, i: nat, ghost buf: seq<char>, ghost f: Fields)
    requires key.Holds(buf, f)
    requires insp.Valid() && key !in insp.partialAppEvtsList && key !in insp.partialAppEvtsPool && ApartFrom(key, insp.Events())
    modifies p`enterPae, insp`partialAppEvtsList, insp`partialAppEvtsPool, key`time
    ensures key.Holds(buf, f) && key.Signature() == old(key.Signature())
    ensures insp.Valid() && key !in insp.partialAppEvtsList && key !in insp.partialAppEvtsPool && ApartFrom(key, insp.Events())
    ensures Closed(insp, key, ts, old(insp.partialAppEvtsList), old(insp.partialAppEvtsPool), old(key.time), p.enterPae, i)
    ensures forall e :: e in old(insp.partialAppEvtsList) ==> e.Signature() == old(e.Signature())
  {
    if i < |insp.partialAppEvtsList| {
      key.time, p.enterPae := ts, insp.partialAppEvtsList[i];
      insp.Release(i);
    } else {
      p.enterPae := null;
    }
  }

  /** The tag storages of the events of `list`. */
  ghost function TagStorages(list: seq<PartialAppEvt>): set<array<EvtChar<TagKind>>>
    reads list`tags
  {
    set x | x in list :: x.tags.storage
  }

  /** What `compare` looks at in each event of `list`, in order. */
  ghost function Signatures(list: seq<PartialAppEvt>): (r: seq<(nat, seq<char>)>)
    reads list`id, list`tags, set x | x in list :: x.tags.storage
    ensures |r| == |list| && forall j {:trigger r[j]} :: 0 <= j < |list| ==> r[j] == list[j].Signature()
    decreases |list|
  {
    if list == [] then [] else [list[0].Signature()] + Signatures(list[1..])
  }

  /**
   * Two signatures that `compare` accepts (see `CompareAgrees`): the same id,
   * and used tag texts that agree over the shorter length.
   */
  ghost predicate SameCall(a: (nat, seq<char>), b: (nat, seq<char>)) {
    a.0 == b.0 && Agree(a.1, b.1)
  }

  /**
   * The index of the first signature of `sigs` that `sig` matches, or `|sigs|`
   * when it matches none.
   */
  ghost function FirstAgreeing(sig: (nat, seq<char>), sigs: seq<(nat, seq<char>)>): (i: nat)
    ensures i <= |sigs| && (i < |sigs| ==> SameCall(sig, sigs[i])) && forall j :: 0 <= j < i ==> !SameCall(sig, sigs[j])
  {
    if sigs == [] then 0
    else if SameCall(sig, sigs[0]) then 0
    else 1 + FirstAgreeing(sig, sigs[1..])
  }

  /** The index `FirstAgreeing` names is the only one with its two properties. */
  lemma FirstAgreeingUnique(sig: (nat, seq<char>), sigs: seq<(nat, seq<char>)>, i: nat)
    requires i <= |sigs| && (i < |sigs| ==> SameCall(sig, sigs[i])) && forall j :: 0 <= j < i ==> !SameCall(sig, sigs[j])
    ensures FirstAgreeing(sig, sigs) == i
  {
  }

  /**
   * The search loop of lines 257-278 and 280: the index of the first event of
   * `list` that `key` matches, or `|list|`.
   */
  method Find(key: PartialAppEvt, list: seq<PartialAppEvt>) returns (i: nat)
    ensures i == old(FirstAgreeing(key.Signature(), Signatures(list)))
  {
    ghost var sig, sigs := key.Signature(), Signatures(list);
    i := 0;
    while i < |list|
      invariant i <= |list| && forall j :: 0 <= j < i ==> !SameCall(sig, sigs[j])
    {
      CompareAgrees(key, list[i]);
      assert sigs[i] == list[i].Signature() && sig == key.Signature();
      if key.Compare(list[i]) {
        FirstAgreeingUnique(sig, sigs, i);
        return;
      }
      i := i + 1;
    }
    FirstAgreeingUnique(sig, sigs, i);
  }

  /** What `realloc` returns: a new buffer of `size` characters starting with those of `a` that fit. */
  method Resized(a: array<char>, size: nat) returns (b: array<char>)
    ensures fresh(b) && b.Length == size
    ensures var m := if size < a.Length then size else a.Length; b[..m] == a[..m]
  {
    b := new char[size];
    var m := if size < a.Length then size else a.Length;
    forall k | 0 <= k < m {
      b[k] := a[k];
    }
  }

  /** `memcpy(a + at, data, |data|)` followed by a NUL. */
  method Place(a: array<char>, at: nat, data: seq<char>)
    requires at + |data| < a.Length
    modifies a
    ensures a[..at + |data| + 1] == old(a[..at]) + data + [NUL]
    ensures a[at + |data| + 1..] == old(a[at + |data| + 1..])
  {
    ghost var kept := a[..at];
    forall k | at <= k < at + |data| {
      a[k] := data[k - at];
    }
    a[at + |data|] := NUL;
    assert a[..at + |data| + 1] == kept + data + [NUL];
  }

  /** `memcpy(a, x, |x|)`: `x` over the start of `a`, the rest left alone. */
  method Overwrite(a: array<char>, x: seq<char>)
    requires |x| <= a.Length
    modifies a
    ensures a[..] == x + old(a[..])[|x|..]
  {
    forall k | 0 <= k < |x| {
      a[k] := x[k];
    }
  }

  /**
   * The buffering state of the parser: the storage's contents, the size of
   * the buffered fragment (`m_fragment_size`) and the saved copy of the text
   * (`m_fullfragment_storage_str`).
   */
  datatype Pending = Pending(buf: seq<char>, size: nat, full: seq<char>)

  /**
   * Lines 180-211, from the state `p` that `parse` left: past the cap the
   * fragment is dropped (the saved copy is kept); with no saved copy `data`
   * and a NUL go back to the start of the storage and the fragment grows by
   * `|data|`; otherwise the saved copy goes back and is the new fragment.
   */
  function Kept(p: Pending, data: seq<char>, max: nat): Pending
    requires |data| < |p.buf| && |p.full| <= |p.buf|
  {
    if p.size > max then Pending(p.buf, 0, p.full)
    else if p.full == [] then Pending(data + [NUL] + p.buf[|data| + 1..], p.size + |data|, [])
    else Pending(p.full + p.buf[|p.full|..], |p.full|, p.full)
  }

  /** Lines 167-215: a truncated record is kept as `Kept` says; after any other result nothing stays buffered. */
  function Settled(res: ParseResult, p: Pending, data: seq<char>, max: nat): Pending
    requires |data| < |p.buf| && |p.full| <= |p.buf|
  {
    if res == Truncated then Kept(p, data, max) else Pending(p.buf, 0, [])
  }

  /**
   * Lines 146-211 for a fragment that stays buffered: `staged` starts with
   * the text buffered so far (`pre`), `data` and a NUL, neither of which
   * holds a NUL, and the copy `full0` saved earlier is empty when nothing was
   * buffered. Then the storage starts with `pre + data` and the fragment
   * size is its length: the fragments are joined in order.
   */
  lemma {:induction false} KeptJoins(staged: seq<char>, pre: seq<char>, data: seq<char>, full0: seq<char>, buf: seq<char>, max: nat)
    requires |staged| == |buf| && |pre| + |data| < |staged| && staged[..|pre| + |data| + 1] == pre + data + [NUL]
    requires NulFree(pre + data) && |pre| <= max && (pre == [] ==> full0 == []) && |full0| <= |buf|
    ensures var full := if pre != [] then CString(staged, 0) else full0;
      |data| < |buf| && |full| <= |buf| &&
      var q := Kept(Pending(buf, |pre|, full), data, max);
      q.size == |pre + data| && q.buf[..q.size] == pre + data
  {
    if pre != [] {
      var n := |pre| + |data|;
      assert staged == [] + (pre + data) + [NUL] + staged[n + 1..];
      CStringOf([], pre + data, staged[n + 1..]);
    }
  }

  /**
   * Lines 182-208 from the state a drop past the cap leaves (lines 182-189:
   * nothing buffered, but the saved copy `stale` kept): the next truncated
   * record is not joined. The stale copy goes back over the start of the
   * storage and becomes the fragment, whatever `data` was.
   */
  lemma {:induction false} KeptAfterDrop(buf: seq<char>, data: seq<char>, stale: seq<char>, max: nat)
    requires |data| < |buf| && |stale| <= |buf| && stale != []
    ensures var q := Settled(Truncated, Pending(buf, 0, stale), data, max);
      q.size == |stale| && q.buf[..q.size] == stale && q.full == stale
  {
  }

  /**
   * `sinsp_appevtparser`. `storage` is `m_storage` (its length is
   * `m_storage_size`), the record fields are those `parse` fills, `exitPae`
   * is the embedded `m_exit_pae`, and `maxUserEvtBuffer` is the constant
   * `MAX_USER_EVT_BUFFER`, which this header uses but does not define.
   */
  class AppEvtParser {
    var storage: array<char>
    var fragmentSize: nat
    var res: ParseResult
    var fullFragment: seq<char>
    var typeStr: Ptr
    var id: nat
    var tags: seq<nat>
    var tagLens: seq<nat>
    var argNames: seq<nat>
    var argNameLens: seq<nat>
    var argVals: seq<nat>
    var argValLens: seq<nat>
    var totTagLens: nat
    var totArgNameLens: nat
    var totArgValLens: nat
    var enterPae: PartialAppEvt?
    const exitPae: PartialAppEvt
    const inspector: Inspector
    const maxUserEvtBuffer: nat

    /** Lines 108-116: no storage, nothing buffered, no enter event. */
    constructor (inspector: Inspector, maxUserEvtBuffer: nat)
      requires inspector.Valid()
      ensures this.inspector == inspector && this.maxUserEvtBuffer == maxUserEvtBuffer
      ensures storage.Length == 0 && fragmentSize == 0 && fullFragment == []
      ensures res == Ok && enterPae == null && fresh(exitPae)
      ensures Valid() && Owned()
    {
      this.inspector := inspector;
      this.maxUserEvtBuffer := maxUserEvtBuffer;
      storage := new char[0];
      fragmentSize := 0;
      res := Ok;
      fullFragment := [];
      typeStr := Null;
      id := 0;
      tags, tagLens, argNames, argNameLens, argVals, argValLens := [], [], [], [], [], [];
      totTagLens, totArgNameLens, totArgValLens := 0, 0, 0;
      enterPae := null;
      exitPae := new PartialAppEvt();
    }

    /** What the parser keeps between calls: the buffered fragment and the saved copy fit in the storage. */
    ghost predicate Valid()
      reads this
    {
      fragmentSize <= storage.Length && |fullFragment| <= storage.Length
    }

    /** The embedded exit event is never one of the inspector's enter events, pending or free. */
    ghost predicate Apart()
      reads inspector`partialAppEvtsList, inspector`partialAppEvtsPool
    {
      exitPae !in inspector.partialAppEvtsList && exitPae !in inspector.partialAppEvtsPool
    }

    /**
     * Every event is in one place and has storages of its own: `Apart`, the
     * inspector's events valid, and the exit event sharing no storage with
     * any of them.
     */
    ghost predicate Owned()
      reads inspector`partialAppEvtsList, inspector`partialAppEvtsPool
      reads inspector.partialAppEvtsList`tags, inspector.partialAppEvtsList`argNames, inspector.partialAppEvtsList`argVals
      reads inspector.partialAppEvtsPool`tags, inspector.partialAppEvtsPool`argNames, inspector.partialAppEvtsPool`argVals
      reads exitPae`tags, exitPae`argNames, exitPae`argVals
    {
      Apart() && inspector.Valid() && ApartFrom(exitPae, inspector.Events())
    }

    /** The buffering state: the storage's contents, the fragment size and the saved copy. */
    function Buffering(): Pending
      reads this`storage, this`fragmentSize, this`fullFragment, storage
    {
      Pending(storage[..], fragmentSize, fullFragment)
    }

    /** The record fields as `parse` leaves them. */
    function Record(): Fields
      reads this`typeStr, this`id, this`tags, this`tagLens, this`argNames, this`argNameLens
      reads this`argVals, this`argValLens, this`totTagLens, this`totArgNameLens, this`totArgValLens
    {
      Fields(typeStr, id, tags, tagLens, argNames, argNameLens, argVals, argValLens,
             totTagLens, totArgNameLens, totArgValLens)
    }

    /**
     * What a successful `parse` leaves for `init_partial_appevt`: every
     * recorded string lies inside the storage, the totals are the sums of the
     * lengths, and there are no more values than names.
     */
    ghost predicate Parsed()
      reads this`storage, storage, this`typeStr, this`id, this`tags, this`tagLens, this`argNames, this`argNameLens
      reads this`argVals, this`argValLens, this`totTagLens, this`totArgNameLens, this`totArgValLens
    {
      Within(storage[..], tags, tagLens) && Within(storage[..], argNames, argNameLens) &&
      Within(storage[..], argVals, argValLens) && Totals(Record()) && |argVals| <= |argNames|
    }

    // -------------------------------------------------------------------------
    // parse (lines 287-529)
    // -------------------------------------------------------------------------

    // The stages of `parse`, each proved against one step of the record
    // grammar. Those that only skip leave the storage and the record alone.

    /** Lines 310-321: leading spaces and the `[`, right before the type string. */
    method OpenStage(p0: nat, ghost s: seq<char>, ghost f: Fields) returns (stop: bool, p: nat)
      requires storage[..] == s && Record() == f && HasNul(s, p0)
      modifies this`res
      ensures StepAt(Open, s, p0, f) == if stop then Done(Outcome(res, s, f)) else Next(TypeStr, s, p, f)
    {
      var delta;
      res, delta := SkipSpaces(storage, p0);
      p := p0 + delta;
      if storage[p] != '[' {
        res := Failed;
        return true, p;
      }
      NulStep(s, p);
      return false, p + 1;
    }

    /** Lines 333-341: the comma between the type string and the id. */
    method IdSepStage(p0: nat, ghost s: seq<char>, ghost f: Fields) returns (stop: bool, p: nat)
      requires storage[..] == s && Record() == f && HasNul(s, p0)
      modifies this`res
      ensures StepAt(IdSep, s, p0, f) == if stop then Done(Outcome(res, s, f)) else Next(IdNum, s, p, f)
    {
      var delta;
      res, delta := SkipSpacesAndCommas(storage, p0, 1);
      return res != Ok, p0 + delta;
    }

    /** Lines 350-363: the comma after the id, unless the id ended with it. */
    method IdEndStage(p0: nat, comma: bool, ghost s: seq<char>, ghost f: Fields) returns (stop: bool, p: nat)
      requires storage[..] == s && Record() == f && HasNul(s, p0)
      modifies this`res
      ensures StepAt(IdEnd(comma), s, p0, f) == if stop then Done(Outcome(res, s, f)) else Next(TagOpen, s, p, f)
    {
      var delta;
      if comma {
        res, delta := SkipSpaces(storage, p0);
        assert Scan(res, delta) == SpacesScan(s, p0);
      } else {
        res, delta := SkipSpacesAndCommas(storage, p0, 1);
        assert Scan(res, delta) == SeparatorScan(s, p0, 1);
      }
      return res != Ok, p0 + delta;
    }

    /** Lines 368-373: the `[` opening the tags. */
    method TagOpenStage(p0: nat, ghost s: seq<char>, ghost f: Fields) returns (stop: bool, p: nat)
      requires storage[..] == s && Record() == f && HasNul(s, p0)
      modifies this`res
      ensures StepAt(TagOpen, s, p0, f) == if stop then Done(Outcome(res, s, f)) else Next(FirstTag, s, p, f)
    {
      var delta;
      res, delta := SkipSpacesAndChar(storage, p0, '[');
      return res != Ok, p0 + delta;
    }

    /** Lines 393-403: the separator before another tag, or the `]` that ends them. */
    method TagSepStage(p0: nat, ghost s: seq<char>, ghost f: Fields) returns (stop: bool, close: bool, p: nat)
      requires storage[..] == s && Record() == f && HasNul(s, p0)
      modifies this`res
      ensures StepAt(TagSep, s, p0, f) ==
                if stop then Done(Outcome(res, s, f)) else Next(if close then ArgsOpen else Tag, s, p, f)
    {
      var delta;
      res, delta := SkipSpacesAndCommas(storage, p0, 0);
      if res != Ok {
        return true, false, p0;
      }
      p := p0 + delta;
      NulAfter(s, p, p);
      return false, storage[p] == ']', p;
    }

    /** Lines 419-425: the brackets and braces opening the arguments. */
    method ArgsOpenStage(p0: nat, ghost s: seq<char>, ghost f: Fields) returns (stop: bool, p: nat)
      requires storage[..] == s && Record() == f && HasNul(s, p0)
      modifies this`res
      ensures StepAt(ArgsOpen, s, p0, f) == if stop then Done(Outcome(res, s, f)) else Next(FirstName, s, p, f)
    {
      var delta;
      res, delta := SkipSpacesAndCommasAndAllBrakets(storage, p0);
      return res != Ok, p0 + delta;
    }

    /** Lines 440-445 and 485-490: the colon between a name and its value. */
    method ColonStage(p0: nat, ghost s: seq<char>, ghost f: Fields) returns (stop: bool, p: nat)
      requires storage[..] == s && Record() == f && HasNul(s, p0)
      modifies this`res
      ensures StepAt(Colon, s, p0, f) == if stop then Done(Outcome(res, s, f)) else Next(Value, s, p, f)
    {
      var delta;
      res, delta := SkipSpacesAndChar(storage, p0, ':');
      return res != Ok, p0 + delta;
    }

    /** Lines 462-473: the separator before another pair, or the `]` that ends them. */
    method PairSepStage(p0: nat, ghost s: seq<char>, ghost f: Fields) returns (stop: bool, close: bool, p: nat)
      requires storage[..] == s && Record() == f && HasNul(s, p0)
      modifies this`res
      ensures StepAt(PairSep, s, p0, f) ==
                if stop then Done(Outcome(res, s, f)) else if close then Next(Close, s, p, f) else Next(Name, s, p, f)
    {
      var delta;
      res, delta := SkipSpacesAndCommasAndCrBrakets(storage, p0);
      if res != Ok {
        return true, false, p0;
      }
      p := p0 + delta;
      NulAfter(s, p, p);
      if storage[p] == ']' {
        NulStep(s, p);
        return false, true, p + 1;
      }
      return false, false, p;
    }

    /** Lines 504-528: trailing spaces and the closing `]`. */
    method CloseStage(p0: nat, ghost s: seq<char>, ghost f: Fields)
      requires storage[..] == s && Record() == f && HasNul(s, p0)
      modifies this`res
      ensures StepAt(Close, s, p0, f) == Done(Outcome(res, s, f))
    {
      var delta;
      res, delta := SkipSpaces(storage, p0);
      var p := p0 + delta;
      if storage[p] != ']' {
        if storage[p] == NUL {
          res := Truncated;
        } else {
          res := Failed;
        }
        return;
      }
      res := Ok;
    }

    /** Lines 323-331: the type string; `m_type_str` is written whatever the result. */
    method TypeStage(p0: nat, ghost s: seq<char>, ghost f: Fields)
      returns (stop: bool, p: nat, ghost s': seq<char>, ghost f': Fields)
      requires storage[..] == s && Record() == f && HasNul(s, p0)
      modifies storage, this`res, this`typeStr
      ensures storage[..] == s' && Record() == f'
      ensures StepAt(TypeStr, s, p0, f) == if stop then Done(Outcome(res, s', f')) else Next(IdSep, s', p, f')
    {
      ghost var t := StrScan(s, p0);
      var ptr, delta;
      res, ptr, delta := ParseStr(storage, p0);
      typeStr := ptr;
      s', f' := t.buf, f.(typeStr := t.ptr);
      if res != Ok {
        return true, p0, s', f';
      }
      p := p0 + delta;
      return false, p, s', f';
    }

    /** Lines 343-348: the id; a comma right after it is consumed with it. */
    method IdStage(p0: nat, ghost s: seq<char>, ghost f: Fields)
      returns (stop: bool, comma: bool, p: nat, ghost s': seq<char>, ghost f': Fields)
      requires storage[..] == s && Record() == f && HasNul(s, p0)
      modifies storage, this`res, this`id
      ensures storage[..] == s' && Record() == f'
      ensures StepAt(IdNum, s, p0, f) == if stop then Done(Outcome(res, s', f')) else Next(IdEnd(comma), s', p, f')
    {
      ghost var n := NumberScan(s, p0);
      var value, delta;
      res, value, delta := ParseNumber(storage, p0);
      s', f' := n.buf, f;
      if res == Failed || res == Truncated {
        return true, false, p0, s', f';
      }
      id := value;
      f' := f.(id := n.value);
      p := p0 + delta;
      return false, res == Comma, p, s', f';
    }

    /**
     * Lines 375-387: the first tag, if there is one; without one the cursor
     * moves past the byte `parsestr` looked at.
     */
    method FirstTagStage(p0: nat, ghost s: seq<char>, ghost f: Fields)
      returns (stop: bool, more: bool, p: nat, ghost s': seq<char>, ghost f': Fields)
      requires storage[..] == s && Record() == f && HasNul(s, p0)
      modifies storage, this`res, this`tags, this`tagLens, this`totTagLens
      ensures storage[..] == s' && Record() == f'
      ensures StepAt(FirstTag, s, p0, f) ==
                if stop then Done(Outcome(res, s', f')) else Next(if more then TagSep else ArgsOpen, s', p, f')
    {
      ghost var t := OptStrScan(s, p0);
      var tstr, delta;
      res, tstr, delta := ParseStrNotEnforce(storage, p0);
      s', f' := t.buf, f;
      if res != Ok {
        return true, false, p0, s', f';
      }
      p := p0 + delta;
      if tstr.At? {
        assert t == StrScan(s, p0);
        tags, tagLens, totTagLens := tags + [tstr.index], tagLens + [delta - 2], totTagLens + (delta - 2);
        f' := Add(f, Tags, tstr.index, delta - 2);
        return false, true, p, s', f';
      }
      return false, false, p, s', f';
    }

    /** Lines 405-413: a later tag. */
    method TagStage(p0: nat, ghost s: seq<char>, ghost f: Fields)
      returns (stop: bool, p: nat, ghost s': seq<char>, ghost f': Fields)
      requires storage[..] == s && Record() == f && HasNul(s, p0)
      modifies storage, this`res, this`tags, this`tagLens, this`totTagLens
      ensures storage[..] == s' && Record() == f'
      ensures StepAt(Tag, s, p0, f) == if stop then Done(Outcome(res, s', f')) else Next(TagSep, s', p, f')
    {
      ghost var t := StrScan(s, p0);
      var tstr, delta;
      res, tstr, delta := ParseStr(storage, p0);
      s', f' := t.buf, f;
      if res != Ok {
        return true, p0, s', f';
      }
      p := p0 + delta;
      tags, tagLens, totTagLens := tags + [p0 + 1], tagLens + [delta - 2], totTagLens + (delta - 2);
      f' := Add(f, Tags, p0 + 1, delta - 2);
      return false, p, s', f';
    }

    /** Lines 427-438: the name of the first pair, if there is one. */
    method FirstNameStage(p0: nat, ghost s: seq<char>, ghost f: Fields)
      returns (stop: bool, more: bool, p: nat, ghost s': seq<char>, ghost f': Fields)
      requires storage[..] == s && Record() == f && HasNul(s, p0)
      modifies storage, this`res, this`argNames, this`argNameLens, this`totArgNameLens
      ensures storage[..] == s' && Record() == f'
      ensures StepAt(FirstName, s, p0, f) ==
                if stop then Done(Outcome(res, s', f')) else Next(if more then Colon else Close, s', p, f')
    {
      ghost var t := OptStrScan(s, p0);
      var tstr, delta;
      res, tstr, delta := ParseStrNotEnforce(storage, p0);
      s', f' := t.buf, f;
      if res != Ok {
        return true, false, p0, s', f';
      }
      p := p0 + delta;
      if tstr.At? {
        assert t == StrScan(s, p0);
        argNames, argNameLens, totArgNameLens :=
          argNames + [tstr.index], argNameLens + [delta - 2], totArgNameLens + (delta - 2);
        f' := Add(f, ArgNames, tstr.index, delta - 2);
        return false, true, p, s', f';
      }
      return false, false, p, s', f';
    }

    /** Lines 475-483: the name of a later pair. */
    method NameStage(p0: nat, ghost s: seq<char>, ghost f: Fields)
      returns (stop: bool, p: nat, ghost s': seq<char>, ghost f': Fields)
      requires storage[..] == s && Record() == f && HasNul(s, p0)
      modifies storage, this`res, this`argNames, this`argNameLens, this`totArgNameLens
      ensures storage[..] == s' && Record() == f'
      ensures StepAt(Name, s, p0, f) == if stop then Done(Outcome(res, s', f')) else Next(Colon, s', p, f')
    {
      ghost var t := StrScan(s, p0);
      var tstr, delta;
      res, tstr, delta := ParseStr(storage, p0);
      s', f' := t.buf, f;
      if res != Ok {
        return true, p0, s', f';
      }
      p := p0 + delta;
      argNames, argNameLens, totArgNameLens :=
        argNames + [p0 + 1], argNameLens + [delta - 2], totArgNameLens + (delta - 2);
      f' := Add(f, ArgNames, p0 + 1, delta - 2);
      return false, p, s', f';
    }

    /** Lines 447-455 and 492-500: the value of a pair. */
    method ValueStage(p0: nat, ghost s: seq<char>, ghost f: Fields)
      returns (stop: bool, p: nat, ghost s': seq<char>, ghost f': Fields)
      requires storage[..] == s && Record() == f && HasNul(s, p0)
      modifies storage, this`res, this`argVals, this`argValLens, this`totArgValLens
      ensures storage[..] == s' && Record() == f'
      ensures StepAt(Value, s, p0, f) == if stop then Done(Outcome(res, s', f')) else Next(PairSep, s', p, f')
    {
      ghost var t := StrScan(s, p0);
      var tstr, delta;
      res, tstr, delta := ParseStr(storage, p0);
      s', f' := t.buf, f;
      if res != Ok {
        return true, p0, s', f';
      }
      p := p0 + delta;
      argVals, argValLens, totArgValLens := argVals + [p0 + 1], argValLens + [delta - 2], totArgValLens + (delta - 2);
      f' := Add(f, ArgVals, p0 + 1, delta - 2);
      return false, p, s', f';
    }

    // The sections of `parse`, each shown to run on as the record grammar does.

    /** Lines 307-331: the opening `[` and the type string. */
    method ParseHead(ghost goal: Outcome, ghost s: seq<char>, ghost f: Fields)
      returns (stop: bool, p: nat, ghost s': seq<char>, ghost f': Fields)
      requires storage[..] == s && Record() == f && Reaches(Open, s, 0, f, goal)
      modifies storage, this`res, this`typeStr
      ensures storage[..] == s' && Record() == f'
      ensures stop ==> Outcome(res, s', f') == goal
      ensures !stop ==> Reaches(IdSep, s', p, f', goal)
    {
      var p1;
      s', f' := s, f;
      stop, p1 := OpenStage(0, s, f);
      if stop {
        Finish(Open, s, 0, f, goal, Outcome(res, s, f));
        return true, p1, s', f';
      }
      Forward(Open, s, 0, f, goal, TypeStr, s, p1, f);
      stop, p, s', f' := TypeStage(p1, s, f);
      if stop {
        Finish(TypeStr, s, p1, f, goal, Outcome(res, s', f'));
        return;
      }
      Forward(TypeStr, s, p1, f, goal, IdSep, s', p, f');
    }

    /** Lines 333-363: the id and the separators around it. */
    method ParseId(p0: nat, ghost goal: Outcome, ghost s: seq<char>, ghost f: Fields)
      returns (stop: bool, p: nat, ghost s': seq<char>, ghost f': Fields)
      requires storage[..] == s && Record() == f && Reaches(IdSep, s, p0, f, goal)
      modifies storage, this`res, this`id
      ensures storage[..] == s' && Record() == f'
      ensures stop ==> Outcome(res, s', f') == goal
      ensures !stop ==> Reaches(TagOpen, s', p, f', goal)
    {
      var p1, p2, comma;
      s', f' := s, f;
      stop, p1 := IdSepStage(p0, s, f);
      if stop {
        Finish(IdSep, s, p0, f, goal, Outcome(res, s, f));
        return true, p0, s', f';
      }
      Forward(IdSep, s, p0, f, goal, IdNum, s, p1, f);
      stop, comma, p2, s', f' := IdStage(p1, s, f);
      if stop {
        Finish(IdNum, s, p1, f, goal, Outcome(res, s', f'));
        return true, p2, s', f';
      }
      Forward(IdNum, s, p1, f, goal, IdEnd(comma), s', p2, f');
      stop, p := IdEndStage(p2, comma, s', f');
      if stop {
        Finish(IdEnd(comma), s', p2, f', goal, Outcome(res, s', f'));
        return;
      }
      Forward(IdEnd(comma), s', p2, f', goal, TagOpen, s', p, f');
    }

    /** Lines 365-414: the list of tags. */
    method ParseTags(p0: nat, ghost goal: Outcome, ghost s: seq<char>, ghost f: Fields)
      returns (stop: bool, p: nat, ghost s': seq<char>, ghost f': Fields)
      requires storage[..] == s && Record() == f && Reaches(TagOpen, s, p0, f, goal)
      modifies storage, this`res, this`tags, this`tagLens, this`totTagLens
      ensures storage[..] == s' && Record() == f'
      ensures stop ==> Outcome(res, s', f') == goal
      ensures !stop ==> Reaches(ArgsOpen, s', p, f', goal)
    {
      var p1, more, close;
      s', f' := s, f;
      stop, p1 := TagOpenStage(p0, s, f);
      if stop {
        Finish(TagOpen, s, p0, f, goal, Outcome(res, s, f));
        return true, p0, s', f';
      }
      Forward(TagOpen, s, p0, f, goal, FirstTag, s, p1, f);
      stop, more, p, s', f' := FirstTagStage(p1, s, f);
      if stop {
        Finish(FirstTag, s, p1, f, goal, Outcome(res, s', f'));
        return;
      }
      Forward(FirstTag, s, p1, f, goal, if more then TagSep else ArgsOpen, s', p, f');
      if !more {
        return;
      }
      while true
        invariant storage[..] == s' && Record() == f' && Reaches(TagSep, s', p, f', goal)
        decreases |s'| - p
      {
        var q;
        stop, close, q := TagSepStage(p, s', f');
        if stop {
          Finish(TagSep, s', p, f', goal, Outcome(res, s', f'));
          return;
        }
        Forward(TagSep, s', p, f', goal, if close then ArgsOpen else Tag, s', q, f');
        if close {
          return false, q, s', f';
        }
        ghost var sq, fq := s', f';
        stop, p, s', f' := TagStage(q, sq, fq);
        if stop {
          Finish(Tag, sq, q, fq, goal, Outcome(res, s', f'));
          return;
        }
        Forward(Tag, sq, q, fq, goal, TagSep, s', p, f');
      }
    }

    /** Lines 440-455 and 485-500: the colon and the value of a pair. */
    method ParseValue(p0: nat, ghost goal: Outcome, ghost s: seq<char>, ghost f: Fields)
      returns (stop: bool, p: nat, ghost s': seq<char>, ghost f': Fields)
      requires storage[..] == s && Record() == f && Reaches(Colon, s, p0, f, goal)
      modifies storage, this`res, this`argVals, this`argValLens, this`totArgValLens
      ensures storage[..] == s' && Record() == f'
      ensures stop ==> Outcome(res, s', f') == goal
      ensures !stop ==> Reaches(PairSep, s', p, f', goal) && p0 < p && |s'| == |s|
    {
      var p1;
      s', f' := s, f;
      stop, p1 := ColonStage(p0, s, f);
      if stop {
        Finish(Colon, s, p0, f, goal, Outcome(res, s, f));
        return true, p0, s', f';
      }
      Forward(Colon, s, p0, f, goal, Value, s, p1, f);
      stop, p, s', f' := ValueStage(p1, s, f);
      if stop {
        Finish(Value, s, p1, f, goal, Outcome(res, s', f'));
        return;
      }
      Forward(Value, s, p1, f, goal, PairSep, s', p, f');
    }

    /** Lines 416-502: the list of argument pairs. */
    method ParseArgs(p0: nat, ghost goal: Outcome, ghost s: seq<char>, ghost f: Fields)
      returns (stop: bool, p: nat, ghost s': seq<char>, ghost f': Fields)
      requires storage[..] == s && Record() == f && Reaches(ArgsOpen, s, p0, f, goal)
      modifies storage, this`res, this`argNames, this`argNameLens, this`totArgNameLens
      modifies this`argVals, this`argValLens, this`totArgValLens
      ensures storage[..] == s' && Record() == f'
      ensures stop ==> Outcome(res, s', f') == goal
      ensures !stop ==> Reaches(Close, s', p, f', goal)
    {
      var p1, more, close;
      s', f' := s, f;
      stop, p1 := ArgsOpenStage(p0, s, f);
      if stop {
        Finish(ArgsOpen, s, p0, f, goal, Outcome(res, s, f));
        return true, p0, s', f';
      }
      Forward(ArgsOpen, s, p0, f, goal, FirstName, s, p1, f);
      stop, more, p, s', f' := FirstNameStage(p1, s, f);
      if stop {
        Finish(FirstName, s, p1, f, goal, Outcome(res, s', f'));
        return;
      }
      Forward(FirstName, s, p1, f, goal, if more then Colon else Close, s', p, f');
      if !more {
        return;
      }
      stop, p, s', f' := ParseValue(p, goal, s', f');
      if stop {
        return;
      }
      while true
        invariant storage[..] == s' && Record() == f' && Reaches(PairSep, s', p, f', goal)
        decreases |s'| - p
      {
        var q;
        stop, close, q := PairSepStage(p, s', f');
        if stop {
          Finish(PairSep, s', p, f', goal, Outcome(res, s', f'));
          return;
        }
        if close {
          Forward(PairSep, s', p, f', goal, Close, s', q, f');
          return false, q, s', f';
        }
        Forward(PairSep, s', p, f', goal, Name, s', q, f');
        ghost var sq, fq := s', f';
        var r;
        stop, r, s', f' := NameStage(q, sq, fq);
        if stop {
          Finish(Name, sq, q, fq, goal, Outcome(res, s', f'));
          return;
        }
        Forward(Name, sq, q, fq, goal, Colon, s', r, f');
        stop, p, s', f' := ParseValue(r, goal, s', f');
        if stop {
          return;
        }
      }
    }

    /** Lines 307-528: the scanners run over the storage, once the record is cleared. */
    method ParseFrom(ghost s: seq<char>, ghost t: Ptr, ghost i: nat)
      requires storage[..] == s && Record() == Cleared(t, i) && HasNul(s, 0)
      modifies storage, this`res, this`typeStr, this`id, this`tags, this`tagLens
      modifies this`argNames, this`argNameLens, this`argVals, this`argValLens
      modifies this`totTagLens, this`totArgNameLens, this`totArgValLens
      ensures Outcome(res, storage[..], Record()) == ParseRecord(s, t, i)
    {
      var stop, p;
      ghost var goal := ParseRecord(s, t, i);
      ghost var s', f' := s, Record();
      stop, p, s', f' := ParseHead(goal, s', f');
      if !stop {
        stop, p, s', f' := ParseId(p, goal, s', f');
      }
      if !stop {
        stop, p, s', f' := ParseTags(p, goal, s', f');
      }
      if !stop {
        stop, p, s', f' := ParseArgs(p, goal, s', f');
      }
      if !stop {
        CloseStage(p, s', f');
        Finish(Close, s', p, f', goal, Outcome(res, s', f'));
      }
    }

    /**
     * Lines 287-529: clears the record, then runs the scanners over the
     * storage; the result, the storage as the scanners left it and the
     * fields are those of `ParseRecord`.
     */
    method Parse()
      requires HasNul(storage[..], 0)
      modifies storage, this`res, this`typeStr, this`id, this`tags, this`tagLens
      modifies this`argNames, this`argNameLens, this`argVals, this`argValLens
      modifies this`totTagLens, this`totArgNameLens, this`totArgValLens
      ensures Outcome(res, storage[..], Record()) == ParseRecord(old(storage[..]), old(typeStr), old(id))
      ensures storage == old(storage) && fragmentSize == old(fragmentSize) && fullFragment == old(fullFragment)
      ensures forall e :: e in inspector.partialAppEvtsList ==> e.Signature() == old(e.Signature())
      ensures unchanged(inspector, exitPae) && unchanged(inspector.Events()) && unchanged(TagStorages(inspector.partialAppEvtsList))
    {
      ghost var s := storage[..];
      tags, argNames, argVals, tagLens, argNameLens, argValLens, totTagLens, totArgNameLens, totArgValLens :=
        [], [], [], [], [], [], 0, 0, 0;
      ParseFrom(s, typeStr, id);
    }

    // -------------------------------------------------------------------------
    // set_storage_size and process_event_data (lines 130-285)
    // -------------------------------------------------------------------------

    /**
     * Lines 130-140: `realloc` of the storage to `newsize` characters; the
     * characters both sizes have are kept.
     */
    method SetStorageSize(newsize: nat)
      modifies this`storage
      ensures fresh(storage) && storage.Length == newsize
      ensures var m := if newsize < old(storage.Length) then newsize else old(storage.Length);
        storage[..m] == old(storage[..m])
    {
      var a := Resized(storage, newsize);
      storage := a;
    }

    /**
     * Lines 146-159: the storage grown to hold the buffered fragment, `data`
     * and a NUL; `data` copied after the buffered fragment with a NUL after
     * it; and, when a fragment was buffered, the text up to the first NUL
     * saved as the full fragment.
     */
    method StoreFragment(data: seq<char>)
      requires Valid()
      modifies this`storage, this`fullFragment, storage
      ensures Valid() && fragmentSize + |data| < storage.Length
      ensures storage == old(storage) || fresh(storage)
      ensures forall e :: e in inspector.partialAppEvtsList ==> e.Signature() == old(e.Signature())
      ensures storage.Length == Grown(old(storage.Length), fragmentSize + |data| + 1)
      ensures old(storage.Length) >= fragmentSize + |data| + 1 ==> storage == old(storage)
      ensures storage[..fragmentSize + |data| + 1] == old(storage[..fragmentSize]) + data + [NUL]
      ensures fullFragment == if fragmentSize != 0 then CString(storage[..], 0) else old(fullFragment)
      ensures unchanged(inspector, exitPae) && unchanged(inspector.Events()) && unchanged(TagStorages(inspector.partialAppEvtsList))
    {
      ghost var kept := storage[..fragmentSize];
      if storage.Length < fragmentSize + |data| + 1 {
        SetStorageSize(fragmentSize + |data| + 1);
      }
      assert storage[..fragmentSize] == kept;
      Place(storage, fragmentSize, data);
      if fragmentSize != 0 {
        CStringBound(storage[..], 0);
        fullFragment := CString(storage[..], 0);
      }
    }

    /** Lines 180-211: a truncated record, buffered until the rest of it arrives, or dropped past the cap. */
    method KeepFragment(data: seq<char>)
      requires |data| < storage.Length && |fullFragment| <= storage.Length
      modifies this`fragmentSize, storage
      ensures Pending(storage[..], fragmentSize, fullFragment) ==
              Kept(Pending(old(storage[..]), old(fragmentSize), fullFragment), data, maxUserEvtBuffer)
      ensures Owned() == old(Owned())
    {
      if fragmentSize > maxUserEvtBuffer {
        fragmentSize := 0;
        return;
      }
      if |fullFragment| == 0 {
        Overwrite(storage, data + [NUL]);
        fragmentSize := fragmentSize + |data|;
      } else {
        Overwrite(storage, fullFragment);
        fragmentSize := |fullFragment|;
      }
    }

    // -------------------------------------------------------------------------
    // State tracking (lines 222-284)
    // -------------------------------------------------------------------------

    /**
     * What the tracking of lines 222-284 starts from: the list and what
     * `compare` looks at in each of its events, the pool, the enter event and
     * the exit event's time stamp.
     */
    ghost function Tracking(): TrackState
      reads this`enterPae, inspector`partialAppEvtsList, inspector`partialAppEvtsPool, exitPae`time
      reads inspector.partialAppEvtsList`id, inspector.partialAppEvtsList`tags
      reads set x | x in inspector.partialAppEvtsList :: x.tags.storage
    {
      TrackState(inspector.partialAppEvtsList, Signatures(inspector.partialAppEvtsList), inspector.partialAppEvtsPool,
                 enterPae, exitPae.time)
    }

    /** The list, the pool and the enter event are still those of `t0`. */
    ghost predicate Untracked(t0: TrackState)
      reads this`enterPae, inspector`partialAppEvtsList, inspector`partialAppEvtsPool
    {
      inspector.partialAppEvtsList == t0.list && inspector.partialAppEvtsPool == t0.pool && enterPae == t0.enter
    }

    /**
     * Lines 239-252 done for the record `f` of `buf` from `t0`: with the pool
     * empty nothing changed; otherwise the enter event is one taken out of
     * the pool and put in front of the list, holding the record and the time
     * stamp `ts`.
     */
    ghost predicate EnterTracked(buf: seq<char>, f: Fields, ts: nat, t0: TrackState)
      reads this`enterPae, inspector`partialAppEvtsList, inspector`partialAppEvtsPool
      reads if enterPae == null then {} else {enterPae, enterPae.tags.storage, enterPae.argNames.storage, enterPae.argVals.storage}
    {
      if t0.pool == {} then Untracked(t0)
      else
        enterPae != null && enterPae in t0.pool && inspector.partialAppEvtsPool == t0.pool - {enterPae} &&
        inspector.partialAppEvtsList == [enterPae] + t0.list && enterPae.Holds(buf, f) && enterPae.time == ts
    }

    /** Lines 239-252: a parsed enter event (`Start` says in which order its steps are done). */
    method TrackEnter(ts: nat)
      requires Parsed() && Owned()
      modifies this`enterPae, inspector`partialAppEvtsList, inspector`partialAppEvtsPool, inspector.partialAppEvtsPool
      modifies set x | x in inspector.partialAppEvtsPool :: x.tags.storage
      modifies set x | x in inspector.partialAppEvtsPool :: x.argNames.storage
      modifies set x | x in inspector.partialAppEvtsPool :: x.argVals.storage
      ensures storage == old(storage) && Buffering() == old(Buffering()) && Record() == old(Record())
      ensures Owned()
      ensures EnterTracked(old(storage[..]), old(Record()), ts, old(Tracking()))
      ensures forall e :: e in old(inspector.partialAppEvtsList) ==> e.Signature() == old(e.Signature())
    {
      var pae := inspector.Peek();
      if pae != null {
        TakeEnter(pae, ts);
      }
    }

    /**
     * Lines 245-248 for the free event `pae` that `pop` chose: it becomes the
     * enter event and `StartEnter` fills it. The assignment of line 248 is
     * done first here; it touches nothing `StartEnter` reads or writes.
     */
    method TakeEnter(pae: PartialAppEvt, ts: nat)
      requires Parsed() && Owned() && pae in inspector.partialAppEvtsPool
      modifies this`enterPae, inspector`partialAppEvtsList, inspector`partialAppEvtsPool
      modifies pae, pae.tags.storage, pae.argNames.storage, pae.argVals.storage
      ensures storage == old(storage) && Buffering() == old(Buffering()) && Record() == old(Record())
      ensures Owned() && enterPae == pae
      ensures inspector.partialAppEvtsPool == old(inspector.partialAppEvtsPool) - {pae}
      ensures inspector.partialAppEvtsList == [pae] + old(inspector.partialAppEvtsList)
      ensures pae.Holds(old(storage[..]), old(Record())) && pae.time == ts
      ensures forall e :: e in old(inspector.partialAppEvtsList) ==> e.Signature() == old(e.Signature())
    {
      ghost var list0 := inspector.partialAppEvtsList;
      enterPae := pae;
      assert forall e :: e in list0 ==> e.Signature() == old(e.Signature());
      assert Buffering() == old(Buffering()) && Record() == old(Record());
      StartEnter(pae, ts);
    }

    /**
     * Lines 245-247 seen from the parser: `pae` leaves the pool, holds the
     * record and the time stamp and heads the list; the parser's own state
     * and the other pending events are left alone.
     */
    method StartEnter(pae: PartialAppEvt, ts: nat)
      requires Parsed() && Owned() && pae in inspector.partialAppEvtsPool
      modifies inspector`partialAppEvtsList, inspector`partialAppEvtsPool
      modifies pae, pae.tags.storage, pae.argNames.storage, pae.argVals.storage
      ensures storage == old(storage) && Buffering() == old(Buffering()) && Record() == old(Record())
      ensures Owned()
      ensures inspector.partialAppEvtsPool == old(inspector.partialAppEvtsPool) - {pae}
      ensures inspector.partialAppEvtsList == [pae] + old(inspector.partialAppEvtsList)
      ensures pae.Holds(old(storage[..]), old(Record())) && pae.time == ts
      ensures forall e :: e in old(inspector.partialAppEvtsList) ==> e.Signature() == old(e.Signature())
    {
      Enroll(inspector, pae, exitPae, storage, Record(), ts);
    }

    /** Lines 253-281: a parsed exit event, and the search for the enter event it closes. */
    method TrackExit(ts: nat)
      requires Parsed() && Owned()
      modifies this`enterPae, inspector`partialAppEvtsList, inspector`partialAppEvtsPool
      modifies exitPae, exitPae.tags.storage, exitPae.argNames.storage, exitPae.argVals.storage
      ensures storage == old(storage) && Buffering() == old(Buffering()) && Record() == old(Record())
      ensures Owned()
      ensures forall e :: e in old(inspector.partialAppEvtsList) ==> e.Signature() == old(e.Signature())
      ensures exitPae.Holds(old(storage[..]), old(Record()))
      ensures Closed(inspector, exitPae, ts, old(inspector.partialAppEvtsList), old(inspector.partialAppEvtsPool), old(exitPae.time), enterPae,
                     FirstAgreeing(exitPae.Signature(), old(Signatures(inspector.partialAppEvtsList))))
    {
      var r0 := Record(); ghost var b0 := Buffering();
      Exit(this, inspector, exitPae, storage, storage[..], r0, ts);
      assert Record() == r0;
      assert Buffering() == b0;
    }

    /**
     * Lines 227-284 done for the record `f` that `parse` accepted in `buf`,
     * from `t0`: nothing when tracking is off; otherwise an enter event (a
     * type string starting with `>`) or an exit event tracked.
     */
    ghost predicate Tracked(buf: seq<char>, f: Fields, ts: nat, t0: TrackState)
      requires f.typeStr.At? && f.typeStr.index < |buf|
      reads this`enterPae, inspector`partialAppEvtsList, inspector`partialAppEvtsPool
      reads exitPae, exitPae.tags.storage, exitPae.argNames.storage, exitPae.argVals.storage
      reads if enterPae == null then {} else {enterPae, enterPae.tags.storage, enterPae.argNames.storage, enterPae.argVals.storage}
    {
      if !inspector.trackAppEvtsState then Untracked(t0)
      else if buf[f.typeStr.index] == '>' then EnterTracked(buf, f, ts, t0)
      else exitPae.Holds(buf, f) && Closed(inspector, exitPae, ts, t0.list, t0.pool, t0.time, enterPae, FirstAgreeing(exitPae.Signature(), t0.sigs))
    }

    /** Lines 227-284: the tracking of a record `parse` accepted; the rest of the parser is left alone. */
    method Track(ts: nat, ghost buf: seq<char>, ghost f: Fields)
      requires storage[..] == buf && Record() == f && Parsed() && Owned() && f.typeStr.At? && f.typeStr.index < |buf|
      modifies this`enterPae, inspector`partialAppEvtsList, inspector`partialAppEvtsPool, inspector.partialAppEvtsPool
      modifies set x | x in inspector.partialAppEvtsPool :: x.tags.storage
      modifies set x | x in inspector.partialAppEvtsPool :: x.argNames.storage
      modifies set x | x in inspector.partialAppEvtsPool :: x.argVals.storage
      modifies exitPae, exitPae.tags.storage, exitPae.argNames.storage, exitPae.argVals.storage
      ensures storage == old(storage) && Buffering() == old(Buffering()) && Record() == old(Record())
      ensures Owned()
      ensures forall e :: e in old(inspector.partialAppEvtsList) ==> e.Signature() == old(e.Signature())
      ensures Tracked(buf, f, ts, old(Tracking()))
    {
      if !inspector.trackAppEvtsState {
        return;
      }
      if storage[typeStr.index] == '>' {
        TrackEnter(ts);
      } else {
        TrackExit(ts);
      }
    }

    /**
     * Lines 146-161 for `datalen` characters `data`: `staged` is the storage
     * once `data` and a NUL follow the buffered fragment, and `o` is what
     * `parse` makes of it. Only the storage, the saved copy and what `parse`
     * fills change: the inspector, its events, the exit event and the tag
     * storages of the pending events are left alone.
     */
    method Stage(data: seq<char>) returns (ghost staged: seq<char>, ghost o: Outcome)
      requires Valid()
      modifies this`storage, this`fullFragment, storage, this`res, this`typeStr, this`id, this`tags, this`tagLens
      modifies this`argNames, this`argNameLens, this`argVals, this`argValLens
      modifies this`totTagLens, this`totArgNameLens, this`totArgValLens
      ensures (storage == old(storage) || fresh(storage)) && fragmentSize + |data| < storage.Length
      ensures forall e :: e in inspector.partialAppEvtsList ==> e.Signature() == old(e.Signature())
      ensures storage.Length == Grown(old(storage.Length), old(fragmentSize) + |data| + 1)
      ensures old(storage.Length) >= old(fragmentSize) + |data| + 1 ==> storage == old(storage)
      ensures old(fragmentSize) + |data| < |staged| == storage.Length && HasNul(staged, 0)
      ensures staged[..old(fragmentSize) + |data| + 1] == old(storage[..fragmentSize]) + data + [NUL]
      ensures o == ParseRecord(staged, old(typeStr), old(id)) && |o.buf| == |staged|
      ensures var full := if old(fragmentSize) != 0 then CString(staged, 0) else old(fullFragment);
        |full| <= |staged| && Buffering() == Pending(o.buf, old(fragmentSize), full)
      ensures o == Outcome(res, storage[..], Record())
      ensures o.res == Ok ==> o.f.typeStr.At? && o.f.typeStr.index < |o.buf| && Parsed()
      ensures unchanged(inspector, exitPae) && unchanged(inspector.Events()) && unchanged(TagStorages(inspector.partialAppEvtsList))
    {
      StoreFragment(data);
      staged := storage[..];
      var n := fragmentSize + |data|;
      assert staged[..n + 1][n] == NUL;
      ParsedWithin(staged, typeStr, id);
      CStringBound(staged, 0);
      Parse();
      o := Outcome(res, storage[..], Record());
    }

    /**
     * Lines 172-173 and 214-215: the buffered fragment and its saved copy
     * dropped; the storage, the record and the tracking state stay.
     */
    method Drop()
      modifies this`fragmentSize, this`fullFragment
      ensures fragmentSize == 0 && fullFragment == []
      ensures Owned() == old(Owned()) && Tracking() == old(Tracking()) && Parsed() == old(Parsed())
    {
      fragmentSize, fullFragment := 0, [];
    }

    /**
     * Lines 167-284 once `parse` left `o` in the storage: the buffering state
     * goes as `Settled` says (a truncated fragment kept, any other `Drop`ped),
     * the result is that of `parse`, and an accepted record is tracked.
     */
    method Settle(data: seq<char>, ts: nat, ghost o: Outcome, ghost t0: TrackState) returns (r: ParseResult)
      requires o == Outcome(res, storage[..], Record()) && Owned()
      requires t0 == Tracking()
      requires fragmentSize + |data| < storage.Length && |fullFragment| <= storage.Length
      requires o.res == Ok ==> o.f.typeStr.At? && o.f.typeStr.index < |o.buf| && Parsed()
      modifies this`fragmentSize, this`fullFragment, storage
      modifies this`enterPae, inspector`partialAppEvtsList, inspector`partialAppEvtsPool, inspector.partialAppEvtsPool
      modifies set x | x in inspector.partialAppEvtsPool :: x.tags.storage
      modifies set x | x in inspector.partialAppEvtsPool :: x.argNames.storage
      modifies set x | x in inspector.partialAppEvtsPool :: x.argVals.storage
      modifies exitPae, exitPae.tags.storage, exitPae.argNames.storage, exitPae.argVals.storage
      ensures Valid() && Owned() && storage == old(storage) && Record() == o.f && r == o.res
      ensures forall e :: e in old(inspector.partialAppEvtsList) ==> e.Signature() == old(e.Signature())
      ensures Buffering() == Settled(o.res, old(Buffering()), data, maxUserEvtBuffer)
      ensures o.res != Ok ==> Untracked(t0)
      ensures o.res == Ok ==> Tracked(o.buf, o.f, ts, t0)
    {
      if res == Truncated {
        KeepFragment(data);
      } else {
        Drop();
        if res == Ok {
          Track(ts, o.buf, o.f);
        }
      }
      return res;
    }

    /**
     * Lines 142-285 for `datalen` characters `data` arriving at time `ts`:
     * `staged` is the storage once `data` and a NUL follow the buffered
     * fragment, `o` is what `parse` makes of it and `r` the result returned.
     * The buffering state then goes as `Settled` says, and a record `parse`
     * accepted is tracked as `Tracked` says.
     */
    method ProcessEventData(data: seq<char>, ts: nat) returns (r: ParseResult, ghost staged: seq<char>, ghost o: Outcome)
      requires Valid() && Owned()
      modifies this, storage, inspector`partialAppEvtsList, inspector`partialAppEvtsPool, inspector.partialAppEvtsPool
      modifies set x | x in inspector.partialAppEvtsPool :: x.tags.storage
      modifies set x | x in inspector.partialAppEvtsPool :: x.argNames.storage
      modifies set x | x in inspector.partialAppEvtsPool :: x.argVals.storage
      modifies exitPae, exitPae.tags.storage, exitPae.argNames.storage, exitPae.argVals.storage
      ensures Valid() && Owned()
      ensures forall e :: e in old(inspector.partialAppEvtsList) ==> e.Signature() == old(e.Signature())
      ensures storage == old(storage) || fresh(storage)
      ensures storage.Length == Grown(old(storage.Length), old(fragmentSize) + |data| + 1)
      ensures old(storage.Length) >= old(fragmentSize) + |data| + 1 ==> storage == old(storage)
      ensures old(fragmentSize) + |data| < |staged| == storage.Length && HasNul(staged, 0)
      ensures staged[..old(fragmentSize) + |data| + 1] == old(storage[..fragmentSize]) + data + [NUL]
      ensures o == ParseRecord(staged, old(typeStr), old(id)) && |o.buf| == |staged| && r == o.res && Record() == o.f
      ensures var full := if old(fragmentSize) != 0 then CString(staged, 0) else old(fullFragment);
        |full| <= |o.buf| && Buffering() == Settled(o.res, Pending(o.buf, old(fragmentSize), full), data, maxUserEvtBuffer)
      ensures o.res != Ok ==> Untracked(old(Tracking()))
      ensures o.res == Ok ==> (o.f.typeStr.At? && o.f.typeStr.index < |o.buf| &&
        Tracked(o.buf, o.f, ts, old(Tracking())))
    {
      ghost var t0 := Tracking();
      staged, o := Stage(data);
      r := Settle(data, ts, o, t0);
    }
  }
}
