/**
 * The partial application event of userspace/libsinsp/appevts.h (lines 24-92):
 * what the parser keeps of an enter event so that the matching exit event
 * can be found, and the packed layout `init_partial_appevt` gives its three
 * string storages: every string followed by a NUL, then one closing NUL.
 */
module AppEvtPack {
  import opened AppEvtScan
  import opened AppEvtRecord

  /** `UESTORAGE_INITIAL_BUFSIZE`. */
  const InitialBufSize: nat := 256

  /** A storage of `size` bytes after it is grown to hold `need` bytes when it is smaller. */
  function Grown(size: nat, need: nat): (r: nat)
    ensures need <= r && size <= r && (r == size || r == need)
  {
    if size < need then need else size
  }

  // ---------------------------------------------------------------------------
  // The packed layout
  // ---------------------------------------------------------------------------

  /** The pieces one after the other. */
  function Concat(cs: seq<seq<char>>): seq<char> {
    if cs == [] then [] else Concat(cs[..|cs| - 1]) + cs[|cs| - 1]
  }

  /** Each string with a NUL after it. */
  function Terminated(items: seq<seq<char>>): (r: seq<seq<char>>)
    ensures |r| == |items|
  {
    seq(|items|, i requires 0 <= i < |items| => items[i] + [NUL])
  }

  /** The packed storage of a list of strings: each one NUL-terminated, then one more NUL. */
  function Packed(items: seq<seq<char>>): seq<char> {
    Concat(Terminated(items)) + [NUL]
  }

  /** Where each piece starts in their concatenation (the pointers `m_tags` etc.). */
  function Offsets(cs: seq<seq<char>>): (r: seq<nat>)
    ensures |r| == |cs|
  {
    if cs == [] then [] else Offsets(cs[..|cs| - 1]) + [|Concat(cs[..|cs| - 1])|]
  }

  /** Every recorded string, and the byte after it, lies inside the buffer. */
  ghost predicate Within(s: seq<char>, starts: seq<nat>, lens: seq<nat>) {
    |starts| == |lens| && forall i :: 0 <= i < |starts| ==> starts[i] + lens[i] < |s|
  }

  /** The strings the parallel vectors delimit in the buffer. */
  ghost function Strings(s: seq<char>, starts: seq<nat>, lens: seq<nat>): (r: seq<seq<char>>)
    requires Within(s, starts, lens)
    ensures |r| == |starts|
  {
    seq(|starts|, i requires 0 <= i < |starts| => s[starts[i]..][..lens[i]])
  }

  /** What `memcpy(p, *it, *sit + 1)` copies: each string with the byte after it. */
  ghost function Chunks(s: seq<char>, starts: seq<nat>, lens: seq<nat>): (r: seq<seq<char>>)
    requires Within(s, starts, lens)
    ensures |r| == |starts|
  {
    seq(|starts|, i requires 0 <= i < |starts| => s[starts[i]..][..lens[i] + 1])
  }

  /** A string the packed layout can hold and give back: no NUL inside. */
  ghost predicate NulFree(x: seq<char>) {
    forall k :: 0 <= k < |x| ==> x[k] != NUL
  }

  /** The bytes from `o` up to the first NUL, as a reader of a C string sees them. */
  function CString(s: seq<char>, o: nat): seq<char>
    requires o <= |s|
    decreases |s| - o
  {
    if o == |s| || s[o] == NUL then [] else [s[o]] + CString(s, o + 1)
  }

  /** A C string read from `o` lies inside the sequence. */
  lemma {:induction false} CStringBound(s: seq<char>, o: nat)
    requires o <= |s|
    ensures |CString(s, o)| <= |s| - o
    decreases |s| - o
  {
    if o < |s| && s[o] != NUL {
      CStringBound(s, o + 1);
    }
  }

  /** The two sequences agree on their common length (what `memcmp` over the shorter one checks). */
  ghost predicate Agree(x: seq<char>, y: seq<char>) {
    forall k :: 0 <= k < |x| && k < |y| ==> x[k] == y[k]
  }

  /** Appending one piece, and where it starts. */
  lemma {:induction false} ConcatSnoc(cs: seq<seq<char>>, i: nat)
    requires i < |cs|
    ensures Concat(cs[..i + 1]) == Concat(cs[..i]) + cs[i]
    ensures Offsets(cs[..i + 1]) == Offsets(cs[..i]) + [|Concat(cs[..i])|]
  {
    assert cs[..i + 1][..i] == cs[..i];
  }

  lemma {:induction false} ConcatAppend(a: seq<seq<char>>, b: seq<seq<char>>)
    ensures Concat(a + b) == Concat(a) + Concat(b)
    decreases |b|
  {
    if b == [] {
      assert a + b == a;
    } else {
      var n := |b| - 1;
      var ab := a + b;
      assert ab[..|a| + n] == a + b[..n];
      assert b[..n + 1] == b && ab[..|a| + n + 1] == ab;
      ConcatSnoc(ab, |a| + n);
      ConcatSnoc(b, n);
      ConcatAppend(a, b[..n]);
    }
  }

  lemma {:induction false} ConcatLength(items: seq<seq<char>>)
    ensures |Concat(Terminated(items))| == |Concat(items)| + |items|
    decreases |items|
  {
    if items != [] {
      var n := |items| - 1;
      assert Terminated(items)[..n] == Terminated(items[..n]);
      ConcatLength(items[..n]);
    }
  }

  /** A NUL after each recorded string makes the copied chunks the terminated strings. */
  lemma {:induction false} ChunksTerminated(s: seq<char>, starts: seq<nat>, lens: seq<nat>)
    requires Within(s, starts, lens)
    requires forall i :: 0 <= i < |starts| ==> s[starts[i] + lens[i]] == NUL
    ensures Chunks(s, starts, lens) == Terminated(Strings(s, starts, lens))
  {
    forall i | 0 <= i < |starts|
      ensures Chunks(s, starts, lens)[i] == Terminated(Strings(s, starts, lens))[i]
    {
      var a, e := starts[i], starts[i] + lens[i];
      assert s[a..e + 1] == s[a..e] + [s[e]];
    }
  }

  /** The bytes of every piece before `i`, then piece `i`, then the rest. */
  lemma {:induction false} ConcatAt(cs: seq<seq<char>>, i: nat)
    requires i < |cs|
    ensures Concat(cs) == Concat(cs[..i]) + cs[i] + Concat(cs[i + 1..])
  {
    assert cs[..i + 1] + cs[i + 1..] == cs;
    ConcatAppend(cs[..i + 1], cs[i + 1..]);
    ConcatSnoc(cs, i);
  }

  lemma {:induction false} OffsetsAt(cs: seq<seq<char>>, i: nat)
    requires i < |cs|
    ensures Offsets(cs)[i] == |Concat(cs[..i])|
    decreases |cs|
  {
    var n := |cs| - 1;
    if i < n {
      assert cs[..n][..i] == cs[..i];
      OffsetsAt(cs[..n], i);
    }
  }

  lemma {:induction false} CStringOf(pre: seq<char>, x: seq<char>, post: seq<char>)
    requires NulFree(x)
    ensures CString(pre + x + [NUL] + post, |pre|) == x
    decreases |x|
  {
    var s := pre + x + [NUL] + post;
    if x == [] {
      assert s[|pre|] == NUL;
    } else {
      assert s == (pre + [x[0]]) + x[1..] + [NUL] + post;
      CStringOf(pre + [x[0]], x[1..], post);
    }
  }

  /**
   * Lines 898-983, read back: the C string at each stored offset of a packed
   * storage is the string that was packed there, and the storage is as long
   * as all strings plus one NUL each plus the closing NUL.
   */
  lemma {:induction false} UnpackPacked(items: seq<seq<char>>)
    requires forall i :: 0 <= i < |items| ==> NulFree(items[i])
    ensures |Packed(items)| == |Concat(items)| + |items| + 1
    ensures Packed(items)[|Packed(items)| - 1] == NUL
    ensures forall i :: 0 <= i < |items| ==>
              Offsets(Terminated(items))[i] < |Packed(items)| &&
              CString(Packed(items), Offsets(Terminated(items))[i]) == items[i]
  {
    ConcatLength(items);
    var t := Terminated(items);
    forall i | 0 <= i < |items|
      ensures Offsets(t)[i] < |Packed(items)| && CString(Packed(items), Offsets(t)[i]) == items[i]
    {
      OffsetsAt(t, i);
      ConcatAt(t, i);
      var pre := Concat(t[..i]);
      assert Packed(items) == pre + items[i] + [NUL] + (Concat(t[i + 1..]) + [NUL]);
      CStringOf(pre, items[i], Concat(t[i + 1..]) + [NUL]);
    }
  }

  /** The packed storage seen from its front: the first string, its NUL, the rest packed. */
  lemma {:induction false} PackedCons(items: seq<seq<char>>)
    requires items != []
    ensures Packed(items) == items[0] + [NUL] + Packed(items[1..])
  {
    var t := Terminated(items);
    assert t == [t[0]] + Terminated(items[1..]);
    ConcatAppend([t[0]], Terminated(items[1..]));
    assert Concat([t[0]]) == Concat([]) + t[0];
  }

  /** The first string of a packed storage, up to its NUL. */
  lemma {:induction false} PackedFirst(items: seq<seq<char>>)
    requires items != [] && NulFree(items[0])
    ensures |Packed(items)| >= |items[0]| + 2 && Packed(items)[|items[0]|] == NUL
    ensures forall k :: 0 <= k < |items[0]| ==> Packed(items)[k] == items[0][k] != NUL
  {
    PackedCons(items);
  }

  /**
   * What `parse` records is ready for packing: every string and the NUL that
   * replaced its closing quote lie inside the buffer, so the copied chunks
   * are the strings with their terminators, and no string holds a NUL.
   */
  lemma {:induction false} RecordedStrings(s0: seq<char>, buf: seq<char>, starts: seq<nat>, lens: seq<nat>, p: nat)
    requires ItemsOk(s0, buf, starts, lens, p) && p <= |buf|
    ensures Within(buf, starts, lens)
    ensures Chunks(buf, starts, lens) == Terminated(Strings(buf, starts, lens))
    ensures forall i :: 0 <= i < |starts| ==> NulFree(Strings(buf, starts, lens)[i])
  {
    forall i | 0 <= i < |starts|
      ensures starts[i] + lens[i] < |buf| && buf[starts[i] + lens[i]] == NUL
      ensures NulFree(buf[starts[i]..][..lens[i]])
    {
      assert ItemAt(s0, buf, starts, lens, p, i);
      forall k | starts[i] <= k < starts[i] + lens[i]
        ensures buf[k] != NUL
      {
        assert SameAt(buf, s0, k);
      }
    }
    ChunksTerminated(buf, starts, lens);
  }

  /** A packed list of non-empty strings starts with a NUL exactly when it is empty. */
  lemma {:induction false} PackedStartsNul(items: seq<seq<char>>)
    requires Plain(items)
    ensures |Packed(items)| > 0 && (Packed(items)[0] == NUL <==> items == [])
  {
    if items != [] {
      PackedFirst(items);
    }
  }

  /** A string the exit event's tags can be told apart by: not empty, no NUL inside. */
  ghost predicate Plain(items: seq<seq<char>>) {
    forall i :: 0 <= i < |items| ==> |items[i]| > 0 && NulFree(items[i])
  }

  lemma {:induction false} AgreeTail(c: seq<char>, x: seq<char>, y: seq<char>)
    requires Agree(c + x, c + y)
    ensures Agree(x, y)
  {
    forall k | 0 <= k < |x| && k < |y|
      ensures x[k] == y[k]
    {
      assert (c + x)[|c| + k] == x[k] && (c + y)[|c| + k] == y[k];
    }
  }

  /**
   * Two packed lists of non-empty, NUL-free strings agree on their common
   * length only if the lists are the same.
   */
  lemma {:induction false} AgreePacked(a: seq<seq<char>>, b: seq<seq<char>>)
    requires Plain(a) && Plain(b) && Agree(Packed(a), Packed(b))
    ensures a == b
    decreases |a|
  {
    PackedStartsNul(a);
    PackedStartsNul(b);
    assert Packed(a)[0] == Packed(b)[0];
    if a != [] {
      PackedFirst(a);
      PackedFirst(b);
      var x, y := a[0], b[0];
      var m := if |x| < |y| then |x| else |y|;
      assert Packed(a)[m] == Packed(b)[m];
      assert |x| == |y|;
      assert x == y;
      PackedCons(a);
      PackedCons(b);
      assert Packed(a) == (x + [NUL]) + Packed(a[1..]);
      assert Packed(b) == (x + [NUL]) + Packed(b[1..]);
      AgreeTail(x + [NUL], Packed(a[1..]), Packed(b[1..]));
      AgreePacked(a[1..], b[1..]);
      assert a == [x] + a[1..] && b == [y] + b[1..];
    }
  }

  /**
   * Every string a finished `parse` recorded lies inside the buffer it left,
   * the totals are the sums of the lengths, and on OK there are no more
   * values than names: what `init_partial_appevt` needs.
   */
  lemma BookkeptWithin(s0: seq<char>, o: Outcome)
    requires Bookkept(s0, o)
    ensures Within(o.buf, o.f.tags, o.f.tagLens) && Within(o.buf, o.f.argNames, o.f.argNameLens)
    ensures Within(o.buf, o.f.argVals, o.f.argValLens) && Totals(o.f)
    ensures o.res == Ok ==> |o.f.argVals| <= |o.f.argNames|
  {
    forall i | 0 <= i < |o.f.tags| ensures o.f.tags[i] + o.f.tagLens[i] < |o.buf| {
      assert ItemAt(s0, o.buf, o.f.tags, o.f.tagLens, |s0|, i);
    }
    forall i | 0 <= i < |o.f.argNames| ensures o.f.argNames[i] + o.f.argNameLens[i] < |o.buf| {
      assert ItemAt(s0, o.buf, o.f.argNames, o.f.argNameLens, |s0|, i);
    }
    forall i | 0 <= i < |o.f.argVals| ensures o.f.argVals[i] + o.f.argValLens[i] < |o.buf| {
      assert ItemAt(s0, o.buf, o.f.argVals, o.f.argValLens, |s0|, i);
    }
  }

  /**
   * What an OK `parse` of a NUL-terminated buffer leaves, as the tracking of
   * lines 222-284 needs it: a type string inside the buffer and the strings,
   * totals and counts `BookkeptWithin` states.
   */
  lemma ParsedWithin(s: seq<char>, typeStr: Ptr, id: nat)
    requires HasNul(s, 0)
    ensures var o := ParseRecord(s, typeStr, id);
      o.res == Ok ==>
        o.f.typeStr.At? && o.f.typeStr.index < |o.buf| &&
        Within(o.buf, o.f.tags, o.f.tagLens) && Within(o.buf, o.f.argNames, o.f.argNameLens) &&
        Within(o.buf, o.f.argVals, o.f.argValLens) && Totals(o.f) && |o.f.argVals| <= |o.f.argNames|
  {
    ParseRecordBookkept(s, typeStr, id);
    ParseRecordTyped(s, typeStr, id);
    BookkeptWithin(s, ParseRecord(s, typeStr, id));
  }

  // ---------------------------------------------------------------------------
  // Copying and packing
  // ---------------------------------------------------------------------------

  /** `memcpy(dst + at, src + from, n)` from a parsed buffer into a partial event's storage. */
  method CopyBytes<K>(dst: array<EvtChar<K>>, at: nat, src: array<char>, from: nat, n: nat)
    requires at + n <= dst.Length && from + n <= src.Length
    modifies dst
    ensures Chars<K>(dst[..at + n]) == Chars<K>(old(dst[..at])) + src[from..from + n]
    ensures forall k :: 0 <= k < dst.Length && !(at <= k < at + n) ==> dst[k] == old(dst[k])
  {
    ghost var kept := dst[..at];
    forall k | at <= k < at + n {
      dst[k] := src[from + k - at] as EvtChar<K>;
    }
    assert dst[..at] == kept;
    assert Chars<K>(dst[at..at + n]) == src[from..from + n];
    assert dst[..at + n] == dst[..at] + dst[at..at + n];
  }

  /** The bytes the copy loop has written after `i` strings, each with the byte after it. */
  ghost function Copied(s: seq<char>, starts: seq<nat>, lens: seq<nat>, i: nat): seq<char>
    requires Within(s, starts, lens) && i <= |starts|
  {
    if i == 0 then [] else Copied(s, starts, lens, i - 1) + s[starts[i - 1]..][..lens[i - 1] + 1]
  }

  /** The offsets the copy loop has recorded after `i` strings. */
  ghost function CopiedOffsets(s: seq<char>, starts: seq<nat>, lens: seq<nat>, i: nat): seq<nat>
    requires Within(s, starts, lens) && i <= |starts|
  {
    if i == 0 then [] else CopiedOffsets(s, starts, lens, i - 1) + [|Copied(s, starts, lens, i - 1)|]
  }

  /** The copy loop's bytes and offsets are the concatenation of the chunks and their offsets. */
  lemma {:induction false} CopiedChunks(s: seq<char>, starts: seq<nat>, lens: seq<nat>, i: nat)
    requires Within(s, starts, lens) && i <= |starts|
    ensures Copied(s, starts, lens, i) == Concat(Chunks(s, starts, lens)[..i])
    ensures CopiedOffsets(s, starts, lens, i) == Offsets(Chunks(s, starts, lens)[..i])
  {
    var cs := Chunks(s, starts, lens);
    if i == 0 {
      assert cs[..0] == [];
    } else {
      assert cs[i - 1] == s[starts[i - 1]..][..lens[i - 1] + 1];
      CopiedChunks(s, starts, lens, i - 1);
      ConcatSnoc(cs, i - 1);
    }
  }

  lemma {:induction false} SumPrefix(lens: seq<nat>, i: nat)
    requires i < |lens|
    ensures Sum(lens[..i + 1]) == Sum(lens[..i]) + lens[i]
  {
    assert lens[..i + 1][..i] == lens[..i];
  }

  lemma {:induction false} SumPrefixBound(lens: seq<nat>, i: nat)
    requires i <= |lens|
    ensures Sum(lens[..i]) <= Sum(lens)
    decreases |lens| - i
  {
    if i < |lens| {
      SumPrefix(lens, i);
      SumPrefixBound(lens, i + 1);
    } else {
      assert lens[..i] == lens;
    }
  }

  /**
   * The copy loop of one block of `init_partial_appevt` (lines 918-926 for the
   * tags): each string is copied with the byte after it and its offset
   * recorded; `p` ends past the last copied byte.
   */
  method CopyStrings<K>(region: array<EvtChar<K>>, src: array<char>, starts: seq<nat>, lens: seq<nat>)
    returns (offs: seq<nat>, p: nat)
    requires Within(src[..], starts, lens)
    requires Sum(lens) + |starts| <= region.Length
    modifies region
    ensures p == Sum(lens) + |starts|
    ensures Chars<K>(region[..p]) == Copied(src[..], starts, lens, |starts|)
    ensures offs == CopiedOffsets(src[..], starts, lens, |starts|)
  {
    ghost var s := src[..];
    p := 0;
    var i := 0;
    offs := [];
    while i < |starts|
      invariant i <= |starts| && p == Sum(lens[..i]) + i <= region.Length
      invariant Chars<K>(region[..p]) == Copied(s, starts, lens, i)
      invariant offs == CopiedOffsets(s, starts, lens, i)
    {
      SumPrefix(lens, i);
      SumPrefixBound(lens, i + 1);
      var n := lens[i] + 1;
      CopyBytes<K>(region, p, src, starts[i], n);
      assert src[starts[i]..starts[i] + n] == s[starts[i]..][..n];
      assert Copied(s, starts, lens, i + 1) == Copied(s, starts, lens, i) + s[starts[i]..][..n];
      offs := offs + [p];
      p := p + n;
      i := i + 1;
    }
    assert lens[..i] == lens;
  }

  /**
   * The copy loop of one block of `init_partial_appevt` and the closing NUL
   * after it (lines 918-929 for the tags), into a storage already large
   * enough; `used` is the length stored in `m_tags_len`.
   */
  method PackItems<K>(region: array<EvtChar<K>>, src: array<char>, starts: seq<nat>, lens: seq<nat>)
    returns (offs: seq<nat>, used: nat)
    requires Within(src[..], starts, lens)
    requires Sum(lens) + |starts| + 1 <= region.Length
    modifies region
    ensures used == Sum(lens) + |starts| + 1
    ensures Chars<K>(region[..used]) == Concat(Chunks(src[..], starts, lens)) + [NUL]
    ensures offs == Offsets(Chunks(src[..], starts, lens))
  {
    var p;
    offs, p := CopyStrings<K>(region, src, starts, lens);
    CopiedChunks(src[..], starts, lens, |starts|);
    assert Chunks(src[..], starts, lens)[..|starts|] == Chunks(src[..], starts, lens);
    ghost var packed := region[..p];
    region[p] := NUL as EvtChar<K>;
    used := p + 1;
    assert region[..used] == packed + [NUL as EvtChar<K>];
  }

  /**
   * A character of one of a partial event's storages; `K` names which of the
   * three (`TagKind`, `NameKind` or `ValKind`). Each partial event allocates
   * and reallocates three storages of its own. The distinct element types
   * keep them apart from each other and from the parser's `array<char>` by
   * typing alone, with no footprint to carry; that two events never share a
   * storage of the same kind is stated by `Unshared`.
   */
  type EvtChar<K> = c: char | true

  /** The storage kinds: tags, argument names, argument values. */
  datatype TagKind = TagKind
  datatype NameKind = NameKind
  datatype ValKind = ValKind

  /** The characters of a stretch of a storage. */
  function Chars<K>(s: seq<EvtChar<K>>): (r: seq<char>)
    ensures |r| == |s| && forall k :: 0 <= k < |s| ==> r[k] == s[k]
  {
    s
  }

  /** The first `used` characters of `a` are the chunks `cs` one after the other and a closing NUL. */
  ghost predicate Stores<K>(a: array<EvtChar<K>>, used: nat, cs: seq<seq<char>>)
    reads a
  {
    var s := Concat(cs) + [NUL];
    used == |s| <= a.Length && forall k :: 0 <= k < used ==> a[k] == s[k]
  }

  /**
   * One kind of string of a partial event, for the tags `m_tags_storage`
   * (its length is `m_tags_storage_size`), `m_tags_len`, `m_tags` as
   * offsets into the storage, and `m_taglens`.
   */
  datatype Block<K> = Block(storage: array<EvtChar<K>>, used: nat, offs: seq<nat>, lens: seq<nat>)

  /**
   * Block `b` holds the strings that `starts` and `lens` delimit in `buf`:
   * each copied with the byte after it, one after the other, then a NUL;
   * the offsets of the copies; and the lengths.
   */
  ghost predicate Carries<K>(b: Block<K>, buf: seq<char>, starts: seq<nat>, lens: seq<nat>)
    reads b.storage
  {
    Within(buf, starts, lens) && Stores<K>(b.storage, b.used, Chunks(buf, starts, lens)) &&
    b.offs == Offsets(Chunks(buf, starts, lens)) && b.lens == lens
  }

  /**
   * The used part of a block's storage. Packing never records a used length
   * past the storage's end (see `Carries`); the cut keeps the view defined
   * for any block.
   */
  function Text<K>(b: Block<K>): seq<char>
    reads b.storage
  {
    Chars<K>(b.storage[..Used(b)])
  }

  /** The used length of a block, cut at the end of its storage. */
  function Used<K>(b: Block<K>): nat {
    if b.used <= b.storage.Length then b.used else b.storage.Length
  }

  /**
   * One block of `init_partial_appevt` (lines 907-929 for the tags): the
   * storage reallocated to `room` characters when it is smaller, then the
   * strings and the closing NUL copied into it.
   */
  method Repack<K>(store: array<EvtChar<K>>, src: array<char>, ghost buf: seq<char>, starts: seq<nat>, lens: seq<nat>, room: nat)
    returns (b: Block<K>)
    requires src[..] == buf && Within(buf, starts, lens) && Sum(lens) + |starts| + 1 <= room
    modifies store
    ensures b.storage == store || fresh(b.storage)
    ensures b.storage.Length == Grown(store.Length, room)
    ensures b.used == Sum(lens) + |starts| + 1 && Carries<K>(b, buf, starts, lens)
  {
    var region := store;
    if region.Length < room {
      region := new EvtChar<K>[room];
    }
    var offs, used := PackItems<K>(region, src, starts, lens);
    b := Block(region, used, offs, lens);
    assert forall k :: 0 <= k < used ==> region[k] == Chars<K>(region[..used])[k];
  }

  // ---------------------------------------------------------------------------
  // The partial event
  // ---------------------------------------------------------------------------

  /**
   * `sinsp_partial_appevt`: the id, a block per kind of string (tags,
   * argument names, argument values), the counts `m_ntags` and `m_nargs`,
   * and the time stamp of the event.
   */
  class PartialAppEvt {
    var id: nat
    var tags: Block<TagKind>
    var argNames: Block<NameKind>
    var argVals: Block<ValKind>
    var ntags: nat
    var nargs: nat
    var time: nat

    /** Lines 27-35: three empty storages of the initial size. */
    constructor ()
      ensures fresh(tags.storage) && fresh(argNames.storage) && fresh(argVals.storage)
      ensures tags.storage.Length == argNames.storage.Length == argVals.storage.Length == InitialBufSize
      ensures tags.used == argNames.used == argVals.used == 0
    {
      var ts := new EvtChar<TagKind>[InitialBufSize];
      var ns := new EvtChar<NameKind>[InitialBufSize];
      var vs := new EvtChar<ValKind>[InitialBufSize];
      tags, argNames, argVals := Block(ts, 0, [], []), Block(ns, 0, [], []), Block(vs, 0, [], []);
      id, ntags, nargs, time := 0, 0, 0, 0;
    }

    /**
     * `init_partial_appevt` (lines 890-983) seen from the partial event: the
     * id of `f`, then its tags, argument names and argument values, packed
     * from the buffer `src` into the three storages, each grown to the
     * encoded length when it is smaller. The argument values are sized with
     * the count of argument names, as in the source.
     */
    method Pack(src: array<char>, f: Fields)
      requires Within(src[..], f.tags, f.tagLens) && Within(src[..], f.argNames, f.argNameLens)
      requires Within(src[..], f.argVals, f.argValLens) && Totals(f) && |f.argVals| <= |f.argNames|
      modifies this, tags.storage, argNames.storage, argVals.storage
      ensures Holds(src[..], f) && time == old(time)
      ensures tags.storage == old(tags.storage) || fresh(tags.storage)
      ensures argNames.storage == old(argNames.storage) || fresh(argNames.storage)
      ensures argVals.storage == old(argVals.storage) || fresh(argVals.storage)
      ensures tags.storage.Length == Grown(old(tags.storage.Length), f.totTagLens + |f.tags| + 1)
      ensures argNames.storage.Length == Grown(old(argNames.storage.Length), f.totArgNameLens + |f.argNames| + 1)
      ensures argVals.storage.Length == Grown(old(argVals.storage.Length), f.totArgValLens + |f.argNames| + 1)
    {
      ghost var buf := src[..];
      var tb := Repack<TagKind>(tags.storage, src, buf, f.tags, f.tagLens, f.totTagLens + |f.tags| + 1);
      var nb := Repack<NameKind>(argNames.storage, src, buf, f.argNames, f.argNameLens, f.totArgNameLens + |f.argNames| + 1);
      var vb := Repack<ValKind>(argVals.storage, src, buf, f.argVals, f.argValLens, f.totArgValLens + |f.argNames| + 1);
      Install(f, tb, nb, vb);
    }

    /** The field updates of `init_partial_appevt` once the three blocks are packed. */
    method Install(f: Fields, tb: Block<TagKind>, nb: Block<NameKind>, vb: Block<ValKind>)
      modifies this
      ensures id == f.id && ntags == |f.tags| && nargs == |f.argNames| && time == old(time)
      ensures tags == tb && argNames == nb && argVals == vb
    {
      id, ntags, nargs := f.id, |f.tags|, |f.argNames|;
      tags, argNames, argVals := tb, nb, vb;
    }

    /**
     * This event holds the packing of the record `f` parsed in `buf`: its
     * id, its three blocks carrying the tags, the argument names and the
     * argument values, and the counts.
     */
    ghost predicate Holds(buf: seq<char>, f: Fields)
      reads this`id, this`ntags, this`nargs, this`tags, this`argNames, this`argVals
      reads tags.storage, argNames.storage, argVals.storage
    {
      id == f.id && ntags == |f.tags| && nargs == |f.argNames| &&
      Carries<TagKind>(tags, buf, f.tags, f.tagLens) && Carries<NameKind>(argNames, buf, f.argNames, f.argNameLens) &&
      Carries<ValKind>(argVals, buf, f.argVals, f.argValLens)
    }

    /** What `compare` looks at: the id and the used text of the tag storage. */
    ghost function Signature(): (nat, seq<char>)
      reads this`id, this`tags, tags.storage
    {
      (id, Text(tags))
    }

    /**
     * Lines 55-70: the same id, and the tag storages equal over the shorter
     * used length.
     */
    function Compare(other: PartialAppEvt): bool
      reads this`id, this`tags, tags.storage, other`id, other`tags, other.tags.storage
    {
      var m := if Used(tags) < Used(other.tags) then Used(tags) else Used(other.tags);
      id == other.id && forall k :: 0 <= k < m ==> tags.storage[k] == other.tags.storage[k]
    }
  }

  /** `a` and `b` share none of their three storages. */
  ghost predicate ApartStorages(a: PartialAppEvt, b: PartialAppEvt)
    reads a`tags, a`argNames, a`argVals, b`tags, b`argNames, b`argVals
  {
    a.tags.storage != b.tags.storage && a.argNames.storage != b.argNames.storage &&
    a.argVals.storage != b.argVals.storage
  }

  /**
   * No two events of `events` share a storage: each `sinsp_partial_appevt`
   * allocates its own (lines 27-35) and only `init_partial_appevt`
   * reallocates them.
   */
  ghost predicate Unshared(events: set<PartialAppEvt>)
    reads events`tags, events`argNames, events`argVals
  {
    forall a, b :: a in events && b in events && a != b ==> ApartStorages(a, b)
  }

  /** `x` shares no storage with any event of `events`. */
  ghost predicate ApartFrom(x: PartialAppEvt, events: set<PartialAppEvt>)
    reads x`tags, x`argNames, x`argVals, events`tags, events`argNames, events`argVals
  {
    forall y :: y in events ==> ApartStorages(x, y)
  }

  /** Two events match when their ids are equal and their used tag storages agree on the shorter length. */
  lemma {:induction false} CompareAgrees(a: PartialAppEvt, b: PartialAppEvt)
    ensures a.Compare(b) <==> a.id == b.id && Agree(Text(a.tags), Text(b.tags))
  {
    var x, y := Text(a.tags), Text(b.tags);
    assert forall k :: 0 <= k < |x| ==> x[k] == a.tags.storage[k];
    assert forall k :: 0 <= k < |y| ==> y[k] == b.tags.storage[k];
  }

  /** Matching does not depend on which event asks. */
  lemma {:induction false} CompareSymmetric(a: PartialAppEvt, b: PartialAppEvt)
    ensures a.Compare(b) == b.Compare(a)
  {
    CompareAgrees(a, b);
    CompareAgrees(b, a);
  }

  /**
   * For packed tag storages whose tags are non-empty and NUL-free, an exit
   * event matches an enter event exactly when the ids and the tag lists are
   * the same.
   */
  lemma {:induction false} ComparePacked(a: PartialAppEvt, b: PartialAppEvt, ta: seq<seq<char>>, tb: seq<seq<char>>)
    requires Text(a.tags) == Packed(ta) && Text(b.tags) == Packed(tb)
    requires Plain(ta) && Plain(tb)
    ensures a.Compare(b) <==> a.id == b.id && ta == tb
  {
    CompareAgrees(a, b);
    if a.Compare(b) {
      AgreePacked(ta, tb);
    }
  }

  /**
   * An event holding a record that `parse` bookkept holds its tags packed:
   * the used tag storage is the packing of the tag strings the record
   * delimits, each of them NUL-free.
   */
  lemma {:induction false} HeldTags(s0: seq<char>, o: Outcome, e: PartialAppEvt)
    requires Bookkept(s0, o) && e.Holds(o.buf, o.f)
    ensures Within(o.buf, o.f.tags, o.f.tagLens)
    ensures Text(e.tags) == Packed(Strings(o.buf, o.f.tags, o.f.tagLens))
    ensures forall i :: 0 <= i < |o.f.tags| ==> NulFree(Strings(o.buf, o.f.tags, o.f.tagLens)[i])
  {
    RecordedStrings(s0, o.buf, o.f.tags, o.f.tagLens, |s0|);
    var t := Packed(Strings(o.buf, o.f.tags, o.f.tagLens));
    assert |Text(e.tags)| == |t|;
    forall k | 0 <= k < |t| ensures Text(e.tags)[k] == t[k] {
      assert e.tags.storage[k] == t[k];
    }
  }

  /**
   * Two events holding records that `parse` bookkept, whose tags are
   * non-empty: `compare` holds exactly when the ids and the tag lists of the
   * two records are the same.
   */
  lemma {:induction false} HeldCompare(s0: seq<char>, o: Outcome, a: PartialAppEvt, s1: seq<char>, o1: Outcome, b: PartialAppEvt)
    requires Bookkept(s0, o) && a.Holds(o.buf, o.f) && Bookkept(s1, o1) && b.Holds(o1.buf, o1.f)
    requires forall i :: 0 <= i < |o.f.tagLens| ==> o.f.tagLens[i] > 0
    requires forall i :: 0 <= i < |o1.f.tagLens| ==> o1.f.tagLens[i] > 0
    ensures Within(o.buf, o.f.tags, o.f.tagLens) && Within(o1.buf, o1.f.tags, o1.f.tagLens)
    ensures a.Compare(b) <==>
      o.f.id == o1.f.id && Strings(o.buf, o.f.tags, o.f.tagLens) == Strings(o1.buf, o1.f.tags, o1.f.tagLens)
  {
    HeldTags(s0, o, a);
    HeldTags(s1, o1, b);
    ComparePacked(a, b, Strings(o.buf, o.f.tags, o.f.tagLens), Strings(o1.buf, o1.f.tags, o1.f.tagLens));
  }

  /**
   * Comparing over the shorter length cannot tell a tag list from the same
   * list with an empty tag appended: such an exit matches such an enter.
   */
  lemma {:induction false} CompareIgnoresEmptyLastTag(a: PartialAppEvt, b: PartialAppEvt, tags: seq<seq<char>>)
    requires Text(a.tags) == Packed(tags) && Text(b.tags) == Packed(tags + [[]])
    requires a.id == b.id
    ensures a.Compare(b) && Packed(tags) != Packed(tags + [[]])
  {
    CompareAgrees(a, b);
    var t := Terminated(tags + [[]]);
    assert t[..|tags|] == Terminated(tags);
    assert Packed(tags + [[]]) == Concat(Terminated(tags)) + [NUL] + [NUL];
  }
}
