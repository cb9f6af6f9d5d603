/**
 * The record grammar of `sinsp_appevtparser::parse` (userspace/libsinsp/appevts.h),
 * as a walk through the points between the source's scanner calls. Each stage
 * runs one scanner on the buffer as the previous stage left it (the scanners
 * write NULs in place), records what the source records, and either stops
 * with a result or hands over to the next stage.
 *
 * The grammar the stages accept is
 *   [ "type" , id , [ "tag" , ... ] , [ {"name":"val"} , ... ] ]
 * with no space allowed between the leading `[` and the type string.
 */
module AppEvtRecord {
  import opened AppEvtScan

  /**
   * The parser's per-record fields: `m_type_str`, `m_id`, the three pairs of
   * parallel vectors (start index, length) and the three running totals.
   */
  datatype Fields = Fields(
    typeStr: Ptr, id: nat,
    tags: seq<nat>, tagLens: seq<nat>,
    argNames: seq<nat>, argNameLens: seq<nat>,
    argVals: seq<nat>, argValLens: seq<nat>,
    totTagLens: nat, totArgNameLens: nat, totArgValLens: nat)

  /** What one call of `parse` leaves behind: `m_res`, the buffer, the fields. */
  datatype Outcome = Outcome(res: ParseResult, buf: seq<char>, f: Fields)

  /** Lines 297-305: every vector and total is cleared; type and id are kept. */
  function Cleared(typeStr: Ptr, id: nat): Fields {
    Fields(typeStr, id, [], [], [], [], [], [], 0, 0, 0)
  }

  /** The three kinds of recorded string: tags, argument names, argument values. */
  datatype Items = Tags | ArgNames | ArgVals

  /**
   * The source's three-line recording of a string (`push_back` of its start,
   * `push_back` of its length, the length added to the total), e.g. lines 384-386.
   */
  function Add(f: Fields, v: Items, start: nat, len: nat): Fields {
    match v
    case Tags =>
      f.(tags := f.tags + [start], tagLens := f.tagLens + [len], totTagLens := f.totTagLens + len)
    case ArgNames =>
      f.(argNames := f.argNames + [start], argNameLens := f.argNameLens + [len],
         totArgNameLens := f.totArgNameLens + len)
    case ArgVals =>
      f.(argVals := f.argVals + [start], argValLens := f.argValLens + [len],
         totArgValLens := f.totArgValLens + len)
  }

  /**
   * The points of `parse` between two scanner calls. The source's single pass
   * is a walk through these stages: each stage runs one scanner, records what
   * the source records, and either returns or hands over to the next stage.
   * `IdEnd` remembers whether the id ended with its comma. The first pair and
   * every later pair share `Colon` and `Value`, as their code in the source is
   * the same.
   */
  datatype Stage =
    | Open | TypeStr | IdSep | IdNum | IdEnd(comma: bool)
    | TagOpen | FirstTag | TagSep | Tag
    | ArgsOpen | FirstName | Colon | Value | PairSep | Name
    | Close

  /** Stages come in this order; `TagSep`/`Tag` and `Colon` ... `Name` repeat. */
  function Rank(st: Stage): nat {
    match st
    case Open => 15
    case TypeStr => 14
    case IdSep => 13
    case IdNum => 12
    case IdEnd(_) => 11
    case TagOpen => 10
    case FirstTag => 9
    case TagSep => 8
    case Tag => 7
    case ArgsOpen => 6
    case FirstName => 5
    case Colon => 4
    case Value => 3
    case PairSep => 2
    case Name => 1
    case Close => 0
  }

  /** What a stage does: `parse` returns, or goes on to a stage at a cursor. */
  datatype Step = Done(o: Outcome) | Next(st: Stage, buf: seq<char>, p: nat, f: Fields)

  /**
   * A stage that goes on keeps the buffer's length and a NUL ahead of the
   * cursor, never moves the cursor back, and either moves it forward or goes
   * on to a later stage.
   */
  ghost predicate Advances(st: Stage, s: seq<char>, p: nat, r: Step) {
    r.Next? ==> |r.buf| == |s| && HasNul(r.buf, r.p) && p <= r.p && (p < r.p || Rank(r.st) < Rank(st))
  }

  /** `parse` over a buffer with a NUL at or after its start. */
  function ParseRecord(s: seq<char>, typeStr: Ptr, id: nat): Outcome
    requires HasNul(s, 0)
  {
    Drive(Open, s, 0, Cleared(typeStr, id))
  }

  /** Runs the stages from `st` at cursor `p` until one of them returns. */
  function Drive(st: Stage, s: seq<char>, p: nat, f: Fields): Outcome
    requires HasNul(s, p)
    decreases |s| - p, Rank(st)
  {
    var r := StepAt(st, s, p, f);
    match r
    case Done(o) => o
    case Next(st', s', p', f') => Drive(st', s', p', f')
  }

  function StepAt(st: Stage, s: seq<char>, p: nat, f: Fields): (r: Step)
    requires HasNul(s, p)
    ensures Advances(st, s, p, r)
  {
    match st
    case Open => OpenStep(s, p, f)
    case TypeStr => TypeStep(s, p, f)
    case IdSep => Separate(s, p, f, SeparatorScan(s, p, 1), IdNum)
    case IdNum => IdNumStep(s, p, f)
    case IdEnd(comma) =>
      Separate(s, p, f, if comma then SpacesScan(s, p) else SeparatorScan(s, p, 1), TagOpen)
    case TagOpen => Separate(s, p, f, CharScan(s, p, '['), FirstTag)
    case FirstTag => OptionalStep(s, p, f, Tags, TagSep, ArgsOpen)
    case TagSep => TagSepStep(s, p, f)
    case Tag => QuotedStep(s, p, f, Tags, TagSep)
    case ArgsOpen => Separate(s, p, f, BracketScan(s, p), FirstName)
    case FirstName => OptionalStep(s, p, f, ArgNames, Colon, Close)
    case Colon => Separate(s, p, f, CharScan(s, p, ':'), Value)
    case Value => QuotedStep(s, p, f, ArgVals, PairSep)
    case PairSep => PairSepStep(s, p, f)
    case Name => QuotedStep(s, p, f, ArgNames, Colon)
    case Close => Done(CloseOutcome(s, p, f))
  }

  /**
   * A `skip_*` scanner between two items: its failure is returned as it is,
   * its success moves the cursor past what it skipped.
   */
  function Separate(s: seq<char>, p: nat, f: Fields, c: Scan, next: Stage): Step
    requires c.res == Ok ==> HasNul(s, p + c.delta)
  {
    if c.res != Ok then Done(Outcome(c.res, s, f)) else Next(next, s, p + c.delta, f)
  }

  /** Lines 310-321: leading spaces, then `[`; the type string must follow it at once. */
  function OpenStep(s: seq<char>, p: nat, f: Fields): (r: Step)
    requires HasNul(s, p)
    ensures Advances(Open, s, p, r)
  {
    var q := p + SpacesScan(s, p).delta;
    if s[q] != '[' then Done(Outcome(Failed, s, f))
    else
      NulStep(s, q);
      Next(TypeStr, s, q + 1, f)
  }

  /** Lines 326-331: the quoted type string; `m_type_str` is written whatever the result. */
  function TypeStep(s: seq<char>, p: nat, f: Fields): (r: Step)
    requires HasNul(s, p)
    ensures Advances(TypeStr, s, p, r)
  {
    var t := StrScan(s, p);
    var f1 := f.(typeStr := t.ptr);
    if t.res != Ok then Done(Outcome(t.res, t.buf, f1))
    else Next(IdSep, t.buf, p + t.delta, f1)
  }

  /** Lines 343-348: the decimal id; a comma after it is consumed with it. */
  function IdNumStep(s: seq<char>, p: nat, f: Fields): (r: Step)
    requires HasNul(s, p)
    ensures Advances(IdNum, s, p, r)
  {
    var n := NumberScan(s, p);
    if n.res == Failed || n.res == Truncated then Done(Outcome(n.res, n.buf, f))
    else Next(IdEnd(n.res == Comma), n.buf, p + n.delta, f.(id := n.value))
  }

  /**
   * A quoted string that must be there (lines 405-413 for a tag, 475-483 for a
   * name, 447-455 and 492-500 for a value): recorded in `v`, then on to `next`.
   */
  function QuotedStep(s: seq<char>, p: nat, f: Fields, v: Items, next: Stage): (r: Step)
    requires HasNul(s, p)
    ensures r.Next? ==> |r.buf| == |s| && HasNul(r.buf, r.p) && p < r.p && r.st == next
  {
    var t := StrScan(s, p);
    if t.res != Ok then Done(Outcome(t.res, t.buf, f))
    else Next(next, t.buf, p + t.delta, Add(f, v, p + 1, t.delta - 2))
  }

  /**
   * An optional first string (lines 375-387 for the tags, 427-438 for the
   * arguments): recorded in `v` and on to `next`, or, when none is there, on
   * to `none` past the one byte consumed.
   */
  function OptionalStep(s: seq<char>, p: nat, f: Fields, v: Items, next: Stage, none: Stage): (r: Step)
    requires HasNul(s, p)
    ensures r.Next? ==> |r.buf| == |s| && HasNul(r.buf, r.p) && p < r.p && r.st in {next, none}
  {
    var t := OptStrScan(s, p);
    if t.res != Ok then Done(Outcome(t.res, t.buf, f))
    else if t.ptr.Null? then Next(none, t.buf, p + t.delta, f)
    else Next(next, t.buf, p + t.delta, Add(f, v, t.ptr.index, t.delta - 2))
  }

  /** Lines 393-403: the separator before another tag, or the `]` ending the list. */
  function TagSepStep(s: seq<char>, p: nat, f: Fields): (r: Step)
    requires HasNul(s, p)
    ensures Advances(TagSep, s, p, r)
  {
    var c := SeparatorScan(s, p, 0);
    if c.res != Ok then Done(Outcome(c.res, s, f))
    else
      var q := p + c.delta;
      NulAfter(s, q, q);
      if s[q] == ']' then Next(ArgsOpen, s, q, f) else Next(Tag, s, q, f)
  }

  /** Lines 462-473: the separator before another pair, or the `]` ending the list. */
  function PairSepStep(s: seq<char>, p: nat, f: Fields): (r: Step)
    requires HasNul(s, p)
    ensures Advances(PairSep, s, p, r)
  {
    var c := CurlyScan(s, p);
    if c.res != Ok then Done(Outcome(c.res, s, f))
    else
      var q := p + c.delta;
      NulAfter(s, q, q);
      if s[q] == ']' then
        NulStep(s, q);
        Next(Close, s, q + 1, f)
      else Next(Name, s, q, f)
  }

  /** Lines 507-528: trailing spaces and the terminating `]`. */
  function CloseOutcome(s: seq<char>, p: nat, f: Fields): Outcome
    requires HasNul(s, p)
  {
    var q := p + SpacesScan(s, p).delta;
    if s[q] != ']' then Outcome(if s[q] == NUL then Truncated else Failed, s, f)
    else Outcome(Ok, s, f)
  }

  // ---------------------------------------------------------------------------
  // One stage at a time: what running on from a stage means, per scanner result
  // ---------------------------------------------------------------------------

  /** Running on from stage `st` at cursor `p` ends with `goal`. */
  ghost predicate Reaches(st: Stage, s: seq<char>, p: nat, f: Fields, goal: Outcome) {
    HasNul(s, p) && Drive(st, s, p, f) == goal
  }

  /** Running on from a stage is running on from where its step goes. */
  lemma DriveNext(st: Stage, s: seq<char>, p: nat, f: Fields)
    requires HasNul(s, p)
    ensures var r := StepAt(st, s, p, f);
      (r.Done? ==> Drive(st, s, p, f) == r.o) &&
      (r.Next? ==> HasNul(r.buf, r.p) && Drive(st, s, p, f) == Drive(r.st, r.buf, r.p, r.f))
  {
  }

  /** Running on towards `goal` from a stage that goes on goes on from where it goes. */
  lemma Forward(st: Stage, s: seq<char>, p: nat, f: Fields, goal: Outcome,
                st': Stage, s': seq<char>, p': nat, f': Fields)
    requires Reaches(st, s, p, f, goal) && StepAt(st, s, p, f) == Next(st', s', p', f')
    ensures Reaches(st', s', p', f', goal)
  {
    DriveNext(st, s, p, f);
  }

  /** Running on towards `goal` from a stage that returns `o` means that `o` is the goal. */
  lemma Finish(st: Stage, s: seq<char>, p: nat, f: Fields, goal: Outcome, o: Outcome)
    requires Reaches(st, s, p, f, goal) && StepAt(st, s, p, f) == Done(o)
    ensures o == goal
  {
    DriveNext(st, s, p, f);
  }

  // ---------------------------------------------------------------------------
  // Bookkeeping: what every return of `parse` leaves in the vectors and totals
  // ---------------------------------------------------------------------------

  ghost function Sum(lens: seq<nat>): nat {
    if lens == [] then 0 else Sum(lens[..|lens| - 1]) + lens[|lens| - 1]
  }

  /** Both buffers hold the same byte at `k`. */
  ghost predicate SameAt(a: seq<char>, b: seq<char>, k: nat) {
    k < |a| && k < |b| && a[k] == b[k]
  }

  /**
   * An item recorded at `start` with length `len` is a quoted string of the
   * original buffer `s0`, its bytes are still in place in `buf`, and the
   * closing quote after them has become a NUL.
   */
  ghost predicate ItemOk(s0: seq<char>, buf: seq<char>, start: nat, len: nat) {
    Quoted(s0, start, len) && |buf| == |s0| && buf[start + len] == NUL &&
    forall k :: start <= k < start + len ==> SameAt(buf, s0, k)
  }

  /** Item `i` of a pair of parallel vectors is well recorded and lies before `p`. */
  ghost predicate ItemAt(s0: seq<char>, buf: seq<char>, starts: seq<nat>, lens: seq<nat>, p: nat, i: nat) {
    i < |starts| && i < |lens| && starts[i] + lens[i] < p && ItemOk(s0, buf, starts[i], lens[i])
  }

  /** Parallel vectors of equal length whose items are all recorded before `p`. */
  ghost predicate ItemsOk(s0: seq<char>, buf: seq<char>, starts: seq<nat>, lens: seq<nat>, p: nat) {
    |starts| == |lens| && forall i :: 0 <= i < |starts| ==> ItemAt(s0, buf, starts, lens, p, i)
  }

  /** Each running total is the sum of its lengths vector. */
  ghost predicate Totals(f: Fields) {
    f.totTagLens == Sum(f.tagLens) && f.totArgNameLens == Sum(f.argNameLens) &&
    f.totArgValLens == Sum(f.argValLens)
  }

  /**
   * The parse state at cursor `p`: the bytes from `p` on are still those of
   * the original buffer, the totals are right, and every recorded item is a
   * quoted string of the original lying before the cursor.
   */
  ghost predicate Inv(s0: seq<char>, buf: seq<char>, p: nat, f: Fields) {
    |buf| == |s0| && p <= |s0| && (forall k :: p <= k < |s0| ==> SameAt(buf, s0, k)) && Totals(f) &&
    ItemsOk(s0, buf, f.tags, f.tagLens, p) && ItemsOk(s0, buf, f.argNames, f.argNameLens, p) &&
    ItemsOk(s0, buf, f.argVals, f.argValLens, p)
  }

  /** What `parse` guarantees on every return: `Inv` with all of the buffer consumed. */
  ghost predicate Bookkept(s0: seq<char>, o: Outcome) {
    Inv(s0, o.buf, |s0|, o.f) && o.res in {Ok, Failed, Truncated} &&
    (o.res == Ok ==> |o.f.argNames| == |o.f.argVals|)
  }

  lemma InvAdvance(s0: seq<char>, buf: seq<char>, p: nat, q: nat, f: Fields)
    requires Inv(s0, buf, p, f) && p <= q <= |s0|
    ensures Inv(s0, buf, q, f)
  {
    ItemsOkAdvance(s0, buf, f.tags, f.tagLens, p, q);
    ItemsOkAdvance(s0, buf, f.argNames, f.argNameLens, p, q);
    ItemsOkAdvance(s0, buf, f.argVals, f.argValLens, p, q);
    forall k | q <= k < |s0|
      ensures SameAt(buf, s0, k)
    {
      assert SameAt(buf, s0, k);
    }
  }

  lemma ItemsOkAdvance(s0: seq<char>, buf: seq<char>, starts: seq<nat>, lens: seq<nat>, p: nat, q: nat)
    requires ItemsOk(s0, buf, starts, lens, p) && p <= q
    ensures ItemsOk(s0, buf, starts, lens, q)
  {
    forall i | 0 <= i < |starts|
      ensures ItemAt(s0, buf, starts, lens, q, i)
    {
      assert ItemAt(s0, buf, starts, lens, p, i);
    }
  }

  lemma ItemsOkWrite(s0: seq<char>, buf: seq<char>, starts: seq<nat>, lens: seq<nat>, p: nat, e: nat)
    requires ItemsOk(s0, buf, starts, lens, p) && p <= e < |buf|
    ensures ItemsOk(s0, buf[e := NUL], starts, lens, e + 1)
  {
    var b, e1 := buf[e := NUL], e + 1;
    forall i | 0 <= i < |starts|
      ensures ItemAt(s0, b, starts, lens, e1, i)
    {
      assert ItemAt(s0, buf, starts, lens, p, i);
      forall k | starts[i] <= k < starts[i] + lens[i]
        ensures SameAt(b, s0, k)
      {
        assert SameAt(buf, s0, k);
      }
    }
  }

  lemma ItemsOkAppend(s0: seq<char>, buf: seq<char>, starts: seq<nat>, lens: seq<nat>, p: nat, start: nat, len: nat)
    requires ItemsOk(s0, buf, starts, lens, p) && ItemOk(s0, buf, start, len) && start + len < p
    ensures ItemsOk(s0, buf, starts + [start], lens + [len], p)
  {
    forall i | 0 <= i < |starts| + 1
      ensures ItemAt(s0, buf, starts + [start], lens + [len], p, i)
    {
      if i < |starts| {
        assert ItemAt(s0, buf, starts, lens, p, i);
      }
    }
  }

  /** A NUL written at or after the cursor leaves the recorded items alone. */
  lemma InvWrite(s0: seq<char>, buf: seq<char>, p: nat, e: nat, f: Fields)
    requires Inv(s0, buf, p, f) && p <= e < |s0|
    ensures Inv(s0, buf[e := NUL], e + 1, f)
  {
    ItemsOkWrite(s0, buf, f.tags, f.tagLens, p, e);
    ItemsOkWrite(s0, buf, f.argNames, f.argNameLens, p, e);
    ItemsOkWrite(s0, buf, f.argVals, f.argValLens, p, e);
    var b := buf[e := NUL];
    forall k | e + 1 <= k < |s0|
      ensures SameAt(b, s0, k)
    {
      assert SameAt(buf, s0, k);
    }
  }

  /** Being a quoted string depends only on the bytes from the opening quote on. */
  lemma QuotedTransfer(a: seq<char>, b: seq<char>, start: nat, len: nat, lo: nat)
    requires Quoted(a, start, len) && |a| == |b| && lo < start
    requires forall k :: lo <= k < |a| ==> a[k] == b[k]
    ensures Quoted(b, start, len)
  {
    forall k | start <= k <= start + len
      ensures ClosingQuoteAt(a, k) == ClosingQuoteAt(b, k)
    {
      assert a[k] == b[k] && a[k - 1] == b[k - 1];
    }
  }

  /** A successful `parsestr` at or after the cursor yields a well-recorded item. */
  lemma InvStr(s0: seq<char>, buf: seq<char>, p: nat, q: nat, f: Fields)
    requires Inv(s0, buf, p, f) && p <= q && HasNul(buf, q) && StrScan(buf, q).res == Ok
    ensures var t := StrScan(buf, q);
      Inv(s0, t.buf, q + t.delta, f) && ItemOk(s0, t.buf, q + 1, t.delta - 2) &&
      q + 1 + (t.delta - 2) < q + t.delta
  {
    var t := StrScan(buf, q);
    var e := q + t.delta - 1;
    StrScanQuoted(buf, q);
    forall k | q <= k < |buf|
      ensures buf[k] == s0[k]
    {
      assert SameAt(buf, s0, k);
    }
    QuotedTransfer(buf, s0, q + 1, t.delta - 2, q);
    InvWrite(s0, buf, p, e, f);
    forall k | q + 1 <= k < e
      ensures SameAt(t.buf, s0, k)
    {
    }
  }

  lemma AppendSum(lens: seq<nat>, len: nat)
    ensures Sum(lens + [len]) == Sum(lens) + len
  {
    assert (lens + [len])[..|lens|] == lens;
  }

  lemma InvAdd(s0: seq<char>, buf: seq<char>, p: nat, f: Fields, v: Items, start: nat, len: nat)
    requires Inv(s0, buf, p, f) && ItemOk(s0, buf, start, len) && start + len < p
    ensures Inv(s0, buf, p, Add(f, v, start, len))
  {
    match v
    case Tags =>
      AppendSum(f.tagLens, len);
      ItemsOkAppend(s0, buf, f.tags, f.tagLens, p, start, len);
    case ArgNames =>
      AppendSum(f.argNameLens, len);
      ItemsOkAppend(s0, buf, f.argNames, f.argNameLens, p, start, len);
    case ArgVals =>
      AppendSum(f.argValLens, len);
      ItemsOkAppend(s0, buf, f.argVals, f.argValLens, p, start, len);
  }

  /** A successful `parsestr` at the cursor, recorded in `v`, keeps the parse state. */
  lemma InvQuoted(s0: seq<char>, s: seq<char>, p: nat, f: Fields, v: Items)
    requires Inv(s0, s, p, f) && HasNul(s, p) && StrScan(s, p).res == Ok
    ensures var t := StrScan(s, p);
      Inv(s0, t.buf, p + t.delta, Add(f, v, p + 1, t.delta - 2))
  {
    var t := StrScan(s, p);
    InvStr(s0, s, p, p, f);
    InvAdd(s0, t.buf, p + t.delta, f, v, p + 1, t.delta - 2);
  }

  /** Between a pair's name and its value there is one name more than there are values. */
  predicate Pending(st: Stage) {
    st == Colon || st == Value
  }

  ghost predicate Balanced(st: Stage, f: Fields) {
    |f.argNames| == |f.argVals| + (if Pending(st) then 1 else 0)
  }

  /** After a step: a returned outcome is bookkept, a stage goes on from a good state. */
  ghost predicate Keeps(s0: seq<char>, r: Step) {
    match r
    case Done(o) => Bookkept(s0, o)
    case Next(st, buf, q, f) => Inv(s0, buf, q, f) && Balanced(st, f)
  }

  /**
   * Lines 296-529: on every return of `parse` the parallel vectors have equal
   * lengths, each total is the sum of its lengths, each recorded string lies
   * between a quote and a closing quote of the original buffer with that
   * closing quote now NUL, the result is OK, FAILED or TRUNCATED, and on OK
   * there are as many argument values as names.
   */
  lemma ParseRecordBookkept(s: seq<char>, typeStr: Ptr, id: nat)
    requires HasNul(s, 0)
    ensures Bookkept(s, ParseRecord(s, typeStr, id))
  {
    DriveKeeps(s, Open, s, 0, Cleared(typeStr, id));
  }

  lemma {:induction false} DriveKeeps(s0: seq<char>, st: Stage, s: seq<char>, p: nat, f: Fields)
    requires HasNul(s, p) && Inv(s0, s, p, f) && Balanced(st, f)
    ensures Bookkept(s0, Drive(st, s, p, f))
    decreases |s| - p, Rank(st)
  {
    StepKeeps(s0, st, s, p, f);
    var r := StepAt(st, s, p, f);
    if r.Next? {
      DriveKeeps(s0, r.st, r.buf, r.p, r.f);
    }
  }

  lemma StepKeeps(s0: seq<char>, st: Stage, s: seq<char>, p: nat, f: Fields)
    requires HasNul(s, p) && Inv(s0, s, p, f) && Balanced(st, f)
    ensures Keeps(s0, StepAt(st, s, p, f))
  {
    match st
    case Open => OpenKeeps(s0, s, p, f);
    case TypeStr => TypeKeeps(s0, s, p, f);
    case IdSep => SeparateKeeps(s0, s, p, f, SeparatorScan(s, p, 1), IdNum);
    case IdNum => IdNumKeeps(s0, s, p, f);
    case IdEnd(comma) =>
      SeparateKeeps(s0, s, p, f, if comma then SpacesScan(s, p) else SeparatorScan(s, p, 1), TagOpen);
    case TagOpen => SeparateKeeps(s0, s, p, f, CharScan(s, p, '['), FirstTag);
    case FirstTag => OptionalKeeps(s0, s, p, f, Tags, TagSep, ArgsOpen);
    case TagSep => TagSepKeeps(s0, s, p, f);
    case Tag => QuotedKeeps(s0, s, p, f, Tags, TagSep);
    case ArgsOpen => SeparateKeeps(s0, s, p, f, BracketScan(s, p), FirstName);
    case FirstName => OptionalKeeps(s0, s, p, f, ArgNames, Colon, Close);
    case Colon => SeparateKeeps(s0, s, p, f, CharScan(s, p, ':'), Value);
    case Value => QuotedKeeps(s0, s, p, f, ArgVals, PairSep);
    case PairSep => PairSepKeeps(s0, s, p, f);
    case Name => QuotedKeeps(s0, s, p, f, ArgNames, Colon);
    case Close => InvAdvance(s0, s, p, |s0|, f);
  }

  lemma SeparateKeeps(s0: seq<char>, s: seq<char>, p: nat, f: Fields, c: Scan, next: Stage)
    requires Inv(s0, s, p, f) && c.res in {Ok, Failed, Truncated} && Balanced(next, f)
    requires c.res == Ok ==> HasNul(s, p + c.delta)
    ensures Keeps(s0, Separate(s, p, f, c, next))
  {
    InvAdvance(s0, s, p, |s0|, f);
    if c.res == Ok {
      NulAfter(s, p + c.delta, p + c.delta);
      InvAdvance(s0, s, p, p + c.delta, f);
    }
  }

  lemma OpenKeeps(s0: seq<char>, s: seq<char>, p: nat, f: Fields)
    requires HasNul(s, p) && Inv(s0, s, p, f) && Balanced(Open, f)
    ensures Keeps(s0, OpenStep(s, p, f))
  {
    var q := p + SpacesScan(s, p).delta;
    InvAdvance(s0, s, p, |s0|, f);
    InvAdvance(s0, s, p, q + 1, f);
  }

  lemma TypeKeeps(s0: seq<char>, s: seq<char>, p: nat, f: Fields)
    requires HasNul(s, p) && Inv(s0, s, p, f) && Balanced(TypeStr, f)
    ensures Keeps(s0, TypeStep(s, p, f))
  {
    if StrScan(s, p).res == Ok {
      InvStr(s0, s, p, p, f);
    } else {
      InvAdvance(s0, s, p, |s0|, f);
    }
  }

  /** Setting the id leaves the parse state alone. */
  lemma InvId(s0: seq<char>, buf: seq<char>, p: nat, f: Fields, id: nat, comma: bool)
    requires Inv(s0, buf, p, f) && Balanced(IdNum, f)
    ensures Inv(s0, buf, p, f.(id := id)) && Balanced(IdEnd(comma), f.(id := id))
  {
  }

  lemma IdNumKeeps(s0: seq<char>, s: seq<char>, p: nat, f: Fields)
    requires HasNul(s, p) && Inv(s0, s, p, f) && Balanced(IdNum, f)
    ensures Keeps(s0, IdNumStep(s, p, f))
  {
    var n := NumberScan(s, p);
    if n.res == Ok || n.res == Comma {
      var q := p + n.delta;
      assert IdNumStep(s, p, f) == Next(IdEnd(n.res == Comma), n.buf, q, f.(id := n.value));
      InvWrite(s0, s, p, q - 1, f);
      InvId(s0, n.buf, q, f, n.value, n.res == Comma);
    } else {
      assert IdNumStep(s, p, f) == Done(Outcome(n.res, s, f));
      InvAdvance(s0, s, p, |s0|, f);
    }
  }

  lemma QuotedKeeps(s0: seq<char>, s: seq<char>, p: nat, f: Fields, v: Items, next: Stage)
    requires HasNul(s, p) && Inv(s0, s, p, f) && Balanced(next, Add(f, v, p, 0))
    ensures Keeps(s0, QuotedStep(s, p, f, v, next))
  {
    var t := StrScan(s, p);
    if t.res == Ok {
      InvQuoted(s0, s, p, f, v);
    } else {
      InvAdvance(s0, s, p, |s0|, f);
    }
  }

  lemma OptionalKeeps(s0: seq<char>, s: seq<char>, p: nat, f: Fields, v: Items, next: Stage, none: Stage)
    requires HasNul(s, p) && Inv(s0, s, p, f) && Balanced(next, Add(f, v, p, 0)) && Balanced(none, f)
    ensures Keeps(s0, OptionalStep(s, p, f, v, next, none))
  {
    if StrScan(s, p).res == Ok {
      assert OptStrScan(s, p) == StrScan(s, p);
      assert OptionalStep(s, p, f, v, next, none) == QuotedStep(s, p, f, v, next);
      QuotedKeeps(s0, s, p, f, v, next);
    } else if StrScan(s, p).res == Failed {
      assert OptStrScan(s, p) == StrResult(Ok, Null, 1, s);
      assert OptionalStep(s, p, f, v, next, none) == Next(none, s, p + 1, f);
      InvAdvance(s0, s, p, p + 1, f);
    } else {
      assert OptionalStep(s, p, f, v, next, none) == Done(Outcome(Truncated, s, f));
      InvAdvance(s0, s, p, |s0|, f);
    }
  }

  lemma TagSepKeeps(s0: seq<char>, s: seq<char>, p: nat, f: Fields)
    requires HasNul(s, p) && Inv(s0, s, p, f) && Balanced(TagSep, f)
    ensures Keeps(s0, TagSepStep(s, p, f))
  {
    var c := SeparatorScan(s, p, 0);
    InvAdvance(s0, s, p, |s0|, f);
    if c.res == Ok {
      NulAfter(s, p + c.delta, p + c.delta);
      InvAdvance(s0, s, p, p + c.delta, f);
    }
  }

  lemma PairSepKeeps(s0: seq<char>, s: seq<char>, p: nat, f: Fields)
    requires HasNul(s, p) && Inv(s0, s, p, f) && Balanced(PairSep, f)
    ensures Keeps(s0, PairSepStep(s, p, f))
  {
    var c := CurlyScan(s, p);
    InvAdvance(s0, s, p, |s0|, f);
    if c.res == Ok {
      var q := p + c.delta;
      NulAfter(s, q, q);
      InvAdvance(s0, s, p, q, f);
      InvAdvance(s0, s, p, q + 1, f);
    }
  }

  // ---------------------------------------------------------------------------
  // The type string: set by the second stage, kept by all later ones
  // ---------------------------------------------------------------------------

  /** From the stage after the type string on, `m_type_str` points before the cursor. */
  ghost predicate Typed(st: Stage, f: Fields, p: nat) {
    st != Open && st != TypeStr ==> f.typeStr.At? && f.typeStr.index < p
  }

  /**
   * Lines 326-331 with the rest of `parse`: on OK, `m_type_str` points into
   * the buffer (the enter/exit test of `process_event_data` reads its first byte).
   */
  lemma ParseRecordTyped(s: seq<char>, typeStr: Ptr, id: nat)
    requires HasNul(s, 0)
    ensures var o := ParseRecord(s, typeStr, id);
      o.res == Ok ==> |o.buf| == |s| && o.f.typeStr.At? && o.f.typeStr.index < |s|
  {
    DriveTyped(Open, s, 0, Cleared(typeStr, id));
  }

  lemma {:induction false} DriveTyped(st: Stage, s: seq<char>, p: nat, f: Fields)
    requires HasNul(s, p) && Typed(st, f, p)
    ensures var o := Drive(st, s, p, f);
      o.res == Ok ==> |o.buf| == |s| && o.f.typeStr.At? && o.f.typeStr.index < |s|
    decreases |s| - p, Rank(st)
  {
    StepTyped(st, s, p, f);
    var r := StepAt(st, s, p, f);
    if r.Next? {
      DriveTyped(r.st, r.buf, r.p, r.f);
    }
  }

  lemma StepTyped(st: Stage, s: seq<char>, p: nat, f: Fields)
    requires HasNul(s, p) && Typed(st, f, p)
    ensures var r := StepAt(st, s, p, f);
      (r.Done? && r.o.res == Ok ==> |r.o.buf| == |s| && r.o.f.typeStr.At? && r.o.f.typeStr.index < |s|) &&
      (r.Next? ==> Typed(r.st, r.f, r.p))
  {
    match st
    case Open =>
    case TypeStr =>
    case IdNum =>
    case FirstTag =>
    case FirstName =>
    case Tag =>
    case Value =>
    case Name =>
    case _ =>
  }
}
