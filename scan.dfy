/**
 * Scanner primitives of the application-event parser (userspace/libsinsp/appevts.h).
 *
 * Every primitive looks at a NUL-terminated byte buffer from a cursor on and
 * reports a parse result plus the number of bytes it consumed. The buffer is an
 * `array<char>`, the cursor a `nat` index. Each primitive is specified by a pure
 * function over the buffer's contents (`SpacesScan`, `SeparatorScan`, ...); the
 * methods of the same name as the source's primitives run the source's loops
 * over the array and are proved to compute exactly that function.
 */
module AppEvtScan {

  /** The source's `parse_result` enumeration. */
  datatype ParseResult = Ok | Comma | Failed | Truncated

  /** A `char*` result: NULL, or the index it points at. */
  datatype Ptr = Null | At(index: nat)

  /** What a separator scanner reports: the result and the bytes consumed. */
  datatype Scan = Scan(res: ParseResult, delta: nat)

  /** What `parsestr` reports; `buf` is the buffer after the call. */
  datatype StrResult = StrResult(res: ParseResult, ptr: Ptr, delta: nat, buf: seq<char>)

  /** What `parsenumber` reports; `buf` is the buffer after the call. */
  datatype NumResult = NumResult(res: ParseResult, value: nat, delta: nat, buf: seq<char>)

  const NUL: char := '\0'

  /** 2^64: `parsenumber` accumulates into a `uint64_t`. */
  const U64: nat := 0x1_0000_0000_0000_0000

  const SpaceChars: set<char> := {' '}
  const SeparatorChars: set<char> := {' ', ','}
  const CurlyChars: set<char> := {' ', ',', '{', '}'}
  const BracketChars: set<char> := {' ', ',', '[', ']', '{', '}'}
  const DigitChars: set<char> := {'0', '1', '2', '3', '4', '5', '6', '7', '8', '9'}

  /** A NUL byte lies at or after `p`: what keeps every scanner loop finite. */
  ghost predicate HasNul(s: seq<char>, p: nat) {
    exists k :: p <= k < |s| && s[k] == NUL
  }

  lemma NulAfter(s: seq<char>, p: nat, q: nat)
    requires HasNul(s, p) && p <= q
    requires forall k :: p <= k < q && k < |s| ==> s[k] != NUL
    ensures HasNul(s, q) && q < |s|
  {
    var k :| p <= k < |s| && s[k] == NUL;
    assert q <= k;
  }

  lemma NulStep(s: seq<char>, p: nat)
    requires p < |s|
    ensures HasNul(s, p) && s[p] != NUL ==> HasNul(s, p + 1)
  {
    if HasNul(s, p) && s[p] != NUL {
      NulAfter(s, p, p + 1);
    }
  }

  /** Overwriting a byte that is not NUL keeps the NUL that follows it. */
  lemma NulPastWrite(s: seq<char>, e: nat)
    requires HasNul(s, e)
    ensures e < |s| && (s[e] != NUL ==> HasNul(s[e := NUL], e + 1))
  {
    var k :| e <= k < |s| && s[k] == NUL;
    if s[e] != NUL {
      assert k != e && s[e := NUL][k] == NUL;
    }
  }

  /** Length of the longest run of bytes in `cs` starting at `p`. */
  function Run(s: seq<char>, p: nat, cs: set<char>): (r: nat)
    requires p <= |s|
    ensures p + r <= |s|
    ensures p + r == |s| || s[p + r] !in cs
    ensures NUL !in cs && HasNul(s, p) ==> p + r < |s| && HasNul(s, p + r)
    decreases |s| - p
  {
    if p < |s| && s[p] in cs then
      NulStep(s, p);
      1 + Run(s, p + 1, cs)
    else
      0
  }

  /** Every byte of the run is in `cs`. */
  lemma {:induction false} RunChars(s: seq<char>, p: nat, cs: set<char>)
    requires p <= |s|
    ensures forall k :: p <= k < p + Run(s, p, cs) ==> s[k] in cs
    decreases |s| - p
  {
    if p < |s| && s[p] in cs {
      RunChars(s, p + 1, cs);
    }
  }

  /** Number of occurrences of `c` in `t`. */
  function Count(t: seq<char>, c: char): nat
  {
    if t == [] then 0 else Count(t[..|t| - 1], c) + (if t[|t| - 1] == c then 1 else 0)
  }

  /** Extending a scanned range by one byte adds that byte to every count. */
  lemma CountStep(s: seq<char>, p: nat, q: nat)
    requires p <= q < |s|
    ensures forall c :: Count(s[p..q + 1], c) == Count(s[p..q], c) + (if s[q] == c then 1 else 0)
  {
    assert s[p..q + 1][..q - p] == s[p..q];
  }

  // ---------------------------------------------------------------------------
  // skip_spaces
  // ---------------------------------------------------------------------------

  /** `skip_spaces`: always OK, consuming the run of spaces at the cursor. */
  function SpacesScan(s: seq<char>, p: nat): (r: Scan)
    requires HasNul(s, p)
    ensures r.res == Ok && p + r.delta < |s| && s[p + r.delta] != ' '
    ensures HasNul(s, p + r.delta)
  {
    Scan(Ok, Run(s, p, SpaceChars))
  }

  /** What `skip_spaces` consumes is spaces only. */
  lemma SpacesScanSkipsSpaces(s: seq<char>, p: nat)
    requires HasNul(s, p)
    ensures forall k :: p <= k < p + SpacesScan(s, p).delta ==> s[k] == ' '
  {
    RunChars(s, p, SpaceChars);
  }

  method SkipSpaces(a: array<char>, p: nat) returns (res: ParseResult, delta: nat)
    requires p <= a.Length && HasNul(a[..], p)
    ensures Scan(res, delta) == SpacesScan(a[..], p)
  {
    var q := p;
    ghost var e := p + Run(a[..], p, SpaceChars);
    RunChars(a[..], p, SpaceChars);
    while a[q] == ' '
      invariant p <= q <= e
      decreases e - q
    {
      // The source also tests for NUL here, which a space never is.
      q := q + 1;
    }
    return Ok, q - p;
  }

  // ---------------------------------------------------------------------------
  // skip_spaces_and_commas
  // ---------------------------------------------------------------------------

  /**
   * `skip_spaces_and_commas`: the run of spaces and commas at the cursor;
   * TRUNCATED when a NUL ends it, FAILED when it holds fewer than `n` commas,
   * otherwise OK with the run consumed.
   */
  function SeparatorScan(s: seq<char>, p: nat, n: nat): (r: Scan)
    requires HasNul(s, p)
    ensures r.res in {Ok, Failed, Truncated}
    ensures r.res == Ok ==> HasNul(s, p + r.delta)
  {
    var e := p + Run(s, p, SeparatorChars);
    if s[e] == NUL then Scan(Truncated, 0)
    else if Count(s[p..e], ',') < n then Scan(Failed, 0)
    else Scan(Ok, e - p)
  }

  method SkipSpacesAndCommas(a: array<char>, p: nat, n: nat) returns (res: ParseResult, delta: nat)
    requires p <= a.Length && HasNul(a[..], p)
    ensures Scan(res, delta) == SeparatorScan(a[..], p, n)
  {
    var q := p;
    var nc := 0;
    ghost var e := p + Run(a[..], p, SeparatorChars);
    RunChars(a[..], p, SeparatorChars);
    while true
      invariant p <= q <= e
      invariant nc == Count(a[p..q], ',')
      decreases e - q
    {
      CountStep(a[..], p, q);
      if a[q] == ' ' {
        q := q + 1;
        continue;
      } else if a[q] == ',' {
        nc := nc + 1;
      } else if a[q] == NUL {
        return Truncated, 0;
      } else {
        break;
      }
      q := q + 1;
    }
    if nc < n {
      return Failed, 0;
    }
    return Ok, q - p;
  }

  // ---------------------------------------------------------------------------
  // skip_spaces_and_char
  // ---------------------------------------------------------------------------

  /**
   * `skip_spaces_and_char`: the run of spaces and `c` at the cursor; TRUNCATED
   * when a NUL ends it, FAILED unless it holds exactly one `c`.
   */
  function CharScan(s: seq<char>, p: nat, c: char): (r: Scan)
    requires HasNul(s, p)
    ensures r.res in {Ok, Failed, Truncated}
    ensures r.res == Ok ==> HasNul(s, p + r.delta)
  {
    var e := p + Run(s, p, {' ', c} - {NUL});
    if s[e] == NUL then Scan(Truncated, 0)
    else if Count(s[p..e], c) != 1 then Scan(Failed, 0)
    else Scan(Ok, e - p)
  }

  method SkipSpacesAndChar(a: array<char>, p: nat, c: char) returns (res: ParseResult, delta: nat)
    requires p <= a.Length && HasNul(a[..], p)
    ensures Scan(res, delta) == CharScan(a[..], p, c)
  {
    var q := p;
    var nc := 0;
    ghost var e := p + Run(a[..], p, {' ', c} - {NUL});
    RunChars(a[..], p, {' ', c} - {NUL});
    while a[q] == ' ' || a[q] == c || a[q] == NUL
      invariant p <= q <= e
      invariant nc == Count(a[p..q], c)
      decreases e - q
    {
      CountStep(a[..], p, q);
      if a[q] == NUL {
        return Truncated, 0;
      } else if a[q] == c {
        nc := nc + 1;
      }
      q := q + 1;
    }
    if nc != 1 {
      return Failed, 0;
    }
    return Ok, q - p;
  }

  // ---------------------------------------------------------------------------
  // skip_spaces_and_commas_and_cr_brakets
  // ---------------------------------------------------------------------------

  /**
   * `skip_spaces_and_commas_and_cr_brakets`: the run of spaces, commas and curly
   * brackets between two arguments. OK only for `, {`, for `} ,`, or for a single
   * `}` right before the closing `]`.
   */
  function CurlyScan(s: seq<char>, p: nat): (r: Scan)
    requires HasNul(s, p)
    ensures r.res in {Ok, Failed, Truncated}
    ensures r.res == Ok ==> HasNul(s, p + r.delta)
  {
    var e := p + Run(s, p, CurlyChars);
    if s[e] == NUL then Scan(Truncated, 0)
    else
      var nc, nocb, nccb := Count(s[p..e], ','), Count(s[p..e], '{'), Count(s[p..e], '}');
      if !((nc == 1 && nocb == 1) || (nc == 1 && nccb == 1) || (nccb == 1 && s[e] == ']')) then
        Scan(Failed, 0)
      else
        Scan(Ok, e - p)
  }

  method SkipSpacesAndCommasAndCrBrakets(a: array<char>, p: nat) returns (res: ParseResult, delta: nat)
    requires p <= a.Length && HasNul(a[..], p)
    ensures Scan(res, delta) == CurlyScan(a[..], p)
  {
    var q := p;
    var nc, nocb, nccb := 0, 0, 0;
    ghost var e := p + Run(a[..], p, CurlyChars);
    RunChars(a[..], p, CurlyChars);
    while a[q] == ' ' || a[q] == ',' || a[q] == '{' || a[q] == '}' || a[q] == NUL
      invariant p <= q <= e
      invariant nc == Count(a[p..q], ',')
      invariant nocb == Count(a[p..q], '{')
      invariant nccb == Count(a[p..q], '}')
      decreases e - q
    {
      CountStep(a[..], p, q);
      if a[q] == NUL {
        return Truncated, 0;
      } else if a[q] == ',' {
        nc := nc + 1;
      } else if a[q] == '{' {
        nocb := nocb + 1;
      } else if a[q] == '}' {
        nccb := nccb + 1;
      }
      q := q + 1;
    }
    if !((nc == 1 && nocb == 1) || (nc == 1 && nccb == 1) || (nccb == 1 && a[q] == ']')) {
      return Failed, 0;
    }
    return Ok, q - p;
  }

  // ---------------------------------------------------------------------------
  // skip_spaces_and_commas_and_all_brakets
  // ---------------------------------------------------------------------------

  /**
   * Where the loop of `skip_spaces_and_commas_and_all_brakets` stops: at the
   * first byte that is not a space, comma or bracket, or at the first `]` that
   * follows a `[` of the same run (`open` says a `[` was already seen).
   */
  function BracketStop(s: seq<char>, q: nat, open: bool): (e: nat)
    requires q <= |s|
    ensures q <= e <= |s|
    decreases |s| - q
  {
    if q == |s| then q
    else if s[q] == ']' && open then q
    else if s[q] in BracketChars then BracketStop(s, q + 1, open || s[q] == '[')
    else q
  }

  lemma {:induction false} BracketStopChars(s: seq<char>, q: nat, open: bool)
    requires q <= |s|
    ensures forall k :: q <= k < BracketStop(s, q, open) ==> s[k] in BracketChars
    decreases |s| - q
  {
    if q < |s| && !(s[q] == ']' && open) && s[q] in BracketChars {
      BracketStopChars(s, q + 1, open || s[q] == '[');
    }
  }

  /** The stop is the first `]` that closes a `[` of the run, or the run's end. */
  lemma {:induction false} BracketStopIsFirstClose(s: seq<char>, q: nat, open: bool)
    requires q <= |s|
    ensures var e := BracketStop(s, q, open);
      (forall k :: q <= k < e ==> !(s[k] == ']' && (open || '[' in s[q..k]))) &&
      (e == |s| || s[e] !in BracketChars || (s[e] == ']' && (open || '[' in s[q..e])))
    decreases |s| - q
  {
    if q < |s| && !(s[q] == ']' && open) && s[q] in BracketChars {
      var e := BracketStop(s, q + 1, open || s[q] == '[');
      BracketStopIsFirstClose(s, q + 1, open || s[q] == '[');
      assert forall k :: q + 1 <= k <= e ==> s[q..k] == [s[q]] + s[q + 1..k];
    }
  }

  /**
   * `skip_spaces_and_commas_and_all_brakets`, the step from the tag list to the
   * argument list: OK only when the bytes skipped hold exactly one comma and one
   * `[`, and either one `{` or the scan stopped on a `]` (the empty list).
   */
  function BracketScan(s: seq<char>, p: nat): (r: Scan)
    requires HasNul(s, p)
    ensures r.res in {Ok, Failed, Truncated}
    ensures r.res == Ok ==> HasNul(s, p + r.delta)
  {
    var e := BracketStop(s, p, false);
    BracketStopChars(s, p, false);
    NulAfter(s, p, e);
    if s[e] == NUL then Scan(Truncated, 0)
    else
      var nc, nosb, nocb := Count(s[p..e], ','), Count(s[p..e], '['), Count(s[p..e], '{');
      if nc != 1 || nosb != 1 then Scan(Failed, 0)
      else if nocb != 1 && s[e] != ']' then Scan(Failed, 0)
      else Scan(Ok, e - p)
  }

  method SkipSpacesAndCommasAndAllBrakets(a: array<char>, p: nat) returns (res: ParseResult, delta: nat)
    requires p <= a.Length && HasNul(a[..], p)
    ensures Scan(res, delta) == BracketScan(a[..], p)
  {
    ghost var s := a[..];
    var q := p;
    var nc, nosb, nocb := 0, 0, 0;
    ghost var e := BracketStop(s, p, false);
    BracketStopChars(s, p, false);
    NulAfter(s, p, e);
    while a[q] == ' ' || a[q] == ',' || a[q] == '[' || a[q] == ']' || a[q] == '{' || a[q] == '}' || a[q] == NUL
      invariant p <= q <= e
      invariant BracketStop(s, q, nosb != 0) == e
      invariant nc == Count(s[p..q], ',')
      invariant nosb == Count(s[p..q], '[')
      invariant nocb == Count(s[p..q], '{')
      decreases e - q
    {
      var c := a[q];
      assert c == s[q];
      CountStep(s, p, q);
      if c == NUL {
        return Truncated, 0;
      } else if c == ',' {
        nc := nc + 1;
      } else if c == '[' {
        nosb := nosb + 1;
      } else if c == ']' {
        if nosb != 0 {
          break;
        }
      } else if c == '{' {
        nocb := nocb + 1;
      }
      q := q + 1;
    }
    var c := a[q];
    assert c == s[q];
    if nc != 1 || nosb != 1 {
      return Failed, 0;
    } else if nocb != 1 {
      if c != ']' {
        return Failed, 0;
      }
    }
    return Ok, q - p;
  }

  // ---------------------------------------------------------------------------
  // parsestr and parsestr_not_enforce
  // ---------------------------------------------------------------------------

  /** A `"` that is a closing quote: not right after a backslash. */
  predicate ClosingQuoteAt(s: seq<char>, k: nat)
    requires 1 <= k < |s|
  {
    s[k] == '"' && s[k - 1] != '\\'
  }

  /**
   * The `len` bytes at `start` are a quoted string of `s`: an opening quote
   * before them, a closing quote after them, and none of them a NUL or a
   * closing quote.
   */
  ghost predicate Quoted(s: seq<char>, start: nat, len: nat) {
    1 <= start && start + len < |s| && s[start - 1] == '"' && ClosingQuoteAt(s, start + len) &&
    (forall k :: start <= k < start + len ==> s[k] != NUL) &&
    (forall k {:trigger ClosingQuoteAt(s, k)} :: start <= k < start + len ==> !ClosingQuoteAt(s, k))
  }

  /** Where the string loop of `parsestr` stops, looking from `q` on. */
  function QuoteEnd(s: seq<char>, q: nat): (e: nat)
    requires 1 <= q <= |s|
    ensures q <= e <= |s|
    ensures forall k {:trigger ClosingQuoteAt(s, k)} :: q <= k < e ==> !ClosingQuoteAt(s, k)
    ensures e == |s| || s[e] == NUL || ClosingQuoteAt(s, e)
    decreases |s| - q
  {
    if q == |s| then q
    else if ClosingQuoteAt(s, q) then q
    else if s[q] == NUL then q
    else QuoteEnd(s, q + 1)
  }

  /** No byte before the stop is a NUL. */
  lemma {:induction false} QuoteEndClean(s: seq<char>, q: nat)
    requires 1 <= q <= |s|
    ensures forall k :: q <= k < QuoteEnd(s, q) ==> s[k] != NUL
    decreases |s| - q
  {
    if q < |s| && !ClosingQuoteAt(s, q) && s[q] != NUL {
      QuoteEndClean(s, q + 1);
    }
  }

  /**
   * `parsestr`: a quoted string at the cursor. The closing quote is overwritten
   * with NUL in place and the result points just past the opening quote.
   */
  function StrScan(s: seq<char>, p: nat): (r: StrResult)
    requires HasNul(s, p)
    ensures |r.buf| == |s|
    ensures s[p] != '"' ==> r.delta == 1 && r.ptr == Null && r.buf == s &&
                            r.res == (if s[p] == NUL then Truncated else Failed)
    ensures r.res == Ok ==>
              r.ptr == At(p + 1) && r.delta >= 2 && p + r.delta < |s| && s[p] == '"' &&
              QuoteEnd(s, p + 1) == p + r.delta - 1 && s[p + r.delta - 1] == '"' &&
              r.buf == s[p + r.delta - 1 := NUL] && HasNul(r.buf, p + r.delta)
    ensures r.res != Ok ==> r.res in {Failed, Truncated} && r.buf == s
    ensures s[p] == '"' && r.res == Truncated ==> r.ptr == At(p + 1)
  {
    NulAfter(s, p, p);
    if s[p] != '"' then
      StrResult(if s[p] == NUL then Truncated else Failed, Null, 1, s)
    else
      NulAfter(s, p, p + 1);
      var e := QuoteEnd(s, p + 1);
      QuoteEndClean(s, p + 1);
      NulAfter(s, p + 1, e);
      if s[e] == NUL then
        StrResult(Truncated, At(p + 1), e - p + 1, s)
      else
        NulPastWrite(s, e);
        StrResult(Ok, At(p + 1), e - p + 1, s[e := NUL])
  }

  /** What a successful `parsestr` delimits is a quoted string of the buffer. */
  lemma StrScanQuoted(s: seq<char>, p: nat)
    requires HasNul(s, p) && StrScan(s, p).res == Ok
    ensures Quoted(s, p + 1, StrScan(s, p).delta - 2)
  {
    QuoteEndClean(s, p + 1);
  }

  method ParseStr(a: array<char>, p: nat) returns (res: ParseResult, ptr: Ptr, delta: nat)
    requires p <= a.Length && HasNul(a[..], p)
    modifies a
    ensures StrResult(res, ptr, delta, a[..]) == StrScan(old(a[..]), p)
  {
    ghost var s := a[..];
    NulAfter(s, p, p);
    ptr := Null;
    if a[p] != '"' {
      delta := 1;
      if a[p] == NUL {
        return Truncated, ptr, delta;
      } else {
        return Failed, ptr, delta;
      }
    }
    ptr := At(p + 1);
    var q := p + 1;
    NulAfter(s, p, q);
    ghost var e := QuoteEnd(s, q);
    QuoteEndClean(s, q);
    NulAfter(s, q, e);
    while !(a[q] == '"' && a[q - 1] != '\\')
      invariant p + 1 <= q <= e
      invariant a[..] == s
      decreases e - q
    {
      if a[q] == NUL {
        delta := q - p + 1;
        return Truncated, ptr, delta;
      }
      q := q + 1;
    }
    assert ClosingQuoteAt(s, q);
    a[q] := NUL;
    delta := q - p + 1;
    return Ok, ptr, delta;
  }

  /**
   * `parsestr_not_enforce`: `parsestr`, except that a FAILED parse becomes OK
   * with a NULL result, one byte consumed. The source's look-ahead for `]`
   * chooses between two branches that both return OK with NULL.
   */
  function OptStrScan(s: seq<char>, p: nat): (r: StrResult)
    requires HasNul(s, p)
    ensures r.res in {Ok, Truncated}
    ensures StrScan(s, p).res != Failed ==> r == StrScan(s, p)
    ensures StrScan(s, p).res == Failed ==> r == StrResult(Ok, Null, 1, s)
    ensures r.res == Ok ==> HasNul(r.buf, p + r.delta)
  {
    var r := StrScan(s, p);
    if r.res == Failed then
      NulAfter(s, p, p + 1);
      if s[p + r.delta] == ']' then StrResult(Ok, Null, r.delta, r.buf)
      else StrResult(Ok, r.ptr, r.delta, r.buf)
    else if r.res == Truncated then r
    else StrResult(Ok, r.ptr, r.delta, r.buf)
  }

  method ParseStrNotEnforce(a: array<char>, p: nat) returns (res: ParseResult, ptr: Ptr, delta: nat)
    requires p <= a.Length && HasNul(a[..], p)
    modifies a
    ensures StrResult(res, ptr, delta, a[..]) == OptStrScan(old(a[..]), p)
  {
    var psres;
    psres, ptr, delta := ParseStr(a, p);
    if psres == Failed {
      NulAfter(a[..], p, p + 1);
      if a[p + delta] == ']' {
        ptr := Null;
        return Ok, ptr, delta;
      }
    } else if psres == Truncated {
      return psres, ptr, delta;
    }
    return Ok, ptr, delta;
  }

  // ---------------------------------------------------------------------------
  // parsenumber
  // ---------------------------------------------------------------------------

  function Digit(c: char): nat
    requires c in DigitChars
  {
    c as int - '0' as int
  }

  /** The value of a run of decimal digits, most significant first. */
  function DecimalValue(d: seq<char>): nat
    requires forall k :: 0 <= k < |d| ==> d[k] in DigitChars
  {
    if d == [] then 0 else DecimalValue(d[..|d| - 1]) * 10 + Digit(d[|d| - 1])
  }

  /**
   * `parsenumber`: the run of digits at the cursor, accumulated modulo 2^64.
   * The byte after it decides: `,` is COMMA, a space OK, NUL TRUNCATED, any
   * other byte FAILED; on COMMA and OK that byte is overwritten with NUL.
   */
  function NumberScan(s: seq<char>, p: nat): (r: NumResult)
    requires HasNul(s, p)
    ensures |r.buf| == |s|
    ensures r.res in {Ok, Comma} ==>
              r.value < U64 && r.delta >= 1 && p + r.delta < |s| &&
              r.buf == s[p + r.delta - 1 := NUL] && HasNul(r.buf, p + r.delta)
    ensures r.res !in {Ok, Comma} ==> r.buf == s
  {
    var e := p + Run(s, p, DigitChars);
    RunChars(s, p, DigitChars);
    var v := DecimalValue(s[p..e]) % U64;
    NulPastWrite(s, e);
    if s[e] == ',' then NumResult(Comma, v, e - p + 1, s[e := NUL])
    else if s[e] != NUL && s[e] != ' ' then NumResult(Failed, 0, 0, s)
    else if s[e] == NUL then NumResult(Truncated, 0, 0, s)
    else NumResult(Ok, v, e - p + 1, s[e := NUL])
  }

  /** Reducing modulo `m` before each step of the accumulation changes nothing. */
  lemma ModStep(x: nat, d: nat, m: nat)
    requires m > 0
    ensures ((x % m) * 10 + d) % m == (x * 10 + d) % m
  {
    var q := x / m;
    assert x == q * m + x % m;
    assert x * 10 + d == (q * 10) * m + ((x % m) * 10 + d);
    ModMultiple(q * 10, (x % m) * 10 + d, m);
  }

  lemma ModMultiple(k: nat, b: nat, m: nat)
    requires m > 0
    ensures (k * m + b) % m == b % m
  {
    if k > 0 {
      var t := (k - 1) * m + b;
      ModMultiple(k - 1, b, m);
      assert k * m + b == t + m;
      ModAdd(t, m);
    }
  }

  lemma ModAdd(t: nat, m: nat)
    requires m > 0
    ensures (t + m) % m == t % m
  {
    var q, r := t / m, t % m;
    assert t + m == (q + 1) * m + r;
    ModUnique(t + m, q + 1, r, m);
  }

  /** Euclidean division has a unique quotient and remainder. */
  lemma ModUnique(x: int, q: int, r: int, m: int)
    requires m > 0 && x == q * m + r && 0 <= r < m
    ensures x % m == r
  {
    var q', r' := x / m, x % m;
    if q' < q {
      MulMono(q' + 1, q, m);
    } else if q < q' {
      MulMono(q + 1, q', m);
    }
  }

  lemma MulMono(a: int, b: int, m: int)
    requires a <= b && m >= 0
    ensures a * m <= b * m
  {
    assert b * m - a * m == (b - a) * m;
  }

  method ParseNumber(a: array<char>, p: nat) returns (res: ParseResult, value: nat, delta: nat)
    requires p <= a.Length && HasNul(a[..], p)
    modifies a
    ensures NumResult(res, value, delta, a[..]) == NumberScan(old(a[..]), p)
  {
    ghost var s := a[..];
    var q := p;
    var val := 0;
    ghost var e := p + Run(s, p, DigitChars);
    RunChars(s, p, DigitChars);
    while '0' <= a[q] <= '9'
      invariant p <= q <= e
      invariant a[..] == s
      invariant val == DecimalValue(s[p..q]) % U64
      decreases e - q
    {
      assert a[q] in DigitChars;
      assert s[p..q + 1][..q - p] == s[p..q];
      ModStep(DecimalValue(s[p..q]), Digit(a[q]), U64);
      val := (val * 10 + Digit(a[q])) % U64;
      q := q + 1;
    }
    assert q == e;
    res := Ok;
    if a[q] == ',' {
      res := Comma;
    } else if a[q] != NUL && a[q] != ' ' {
      return Failed, 0, 0;
    } else if a[q] == NUL {
      return Truncated, 0, 0;
    }
    a[q] := NUL;
    value := val;
    delta := q - p + 1;
  }
}
