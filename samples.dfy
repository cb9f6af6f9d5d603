/**
 * Two records run through `parse` one stage at a time: one with empty tag and
 * argument lists, and one with a tag and an argument. Both start with the
 * same head, whose stages are proved once for any record that starts with it.
 */
module AppEvtSamples {
  import opened AppEvtScan
  import opened AppEvtRecord

  // ---------------------------------------------------------------------------
  // The head [">a",7,[
  // ---------------------------------------------------------------------------

  /** The head `[">a",7,[` that both samples share. */
  const Head: seq<char> := "[\">a\",7,["

  /**
   * A record that starts with `Head`, goes on with a byte that ends the run of
   * spaces and brackets after it, and holds a NUL further on.
   */
  ghost predicate Headed(s: seq<char>) {
    |s| > 9 && s[..9] == Head && s[9] !in {' ', '[', NUL} && HasNul(s, 9)
  }

  /** The NUL after the head survives the two NULs the head's scanners write. */
  lemma HeadNul(s: seq<char>)
    requires Headed(s)
    ensures HasNul(s, 0) && HasNul(s[4 := NUL], 5) && HasNul(s[4 := NUL], 6)
    ensures HasNul(s[4 := NUL][7 := NUL], 8) && HasNul(s[4 := NUL][7 := NUL], 9)
  {
    var k :| 9 <= k < |s| && s[k] == NUL;
    assert s[4 := NUL][k] == NUL && s[4 := NUL][7 := NUL][k] == NUL;
  }

  lemma HeadOpen(s: seq<char>, f: Fields)
    requires Headed(s)
    ensures HasNul(s, 0) && StepAt(Open, s, 0, f) == Next(TypeStr, s, 1, f)
  {
    assert s[0] == Head[0];
  }

  lemma HeadType(s: seq<char>, f: Fields)
    requires Headed(s)
    ensures HasNul(s, 1) && StepAt(TypeStr, s, 1, f) == Next(IdSep, s[4 := NUL], 5, f.(typeStr := At(2)))
  {
    assert s[1] == Head[1] && s[2] == Head[2] && s[3] == Head[3] && s[4] == Head[4];
    assert ClosingQuoteAt(s, 4) && QuoteEnd(s, 4) == 4;
    assert !ClosingQuoteAt(s, 3) && QuoteEnd(s, 3) == 4;
    assert !ClosingQuoteAt(s, 2) && QuoteEnd(s, 2) == 4;
  }

  lemma HeadIdSep(s: seq<char>, f: Fields)
    requires Headed(s)
    ensures HasNul(s[4 := NUL], 5) && StepAt(IdSep, s[4 := NUL], 5, f) == Next(IdNum, s[4 := NUL], 6, f)
  {
    HeadNul(s);
    var s1 := s[4 := NUL];
    assert s1[5] == Head[5] && s1[6] == Head[6];
    assert Run(s1, 5, SeparatorChars) == 1;
    assert s1[5..6] == [','];
  }

  lemma HeadIdNum(s: seq<char>, f: Fields)
    requires Headed(s)
    ensures HasNul(s[4 := NUL], 6)
    ensures StepAt(IdNum, s[4 := NUL], 6, f) == Next(IdEnd(true), s[4 := NUL][7 := NUL], 8, f.(id := 7))
  {
    HeadNul(s);
    var s1 := s[4 := NUL];
    assert s1[6] == Head[6] && s1[7] == Head[7];
    assert Run(s1, 6, DigitChars) == 1;
    assert s1[6..7] == ['7'];
    assert DecimalValue(['7']) == 7;
  }

  lemma HeadTagOpen(s: seq<char>, f: Fields)
    requires Headed(s)
    ensures var s2 := s[4 := NUL][7 := NUL];
      HasNul(s2, 8) && StepAt(IdEnd(true), s2, 8, f) == Next(TagOpen, s2, 8, f) &&
      StepAt(TagOpen, s2, 8, f) == Next(FirstTag, s2, 9, f)
  {
    HeadNul(s);
    var s2 := s[4 := NUL][7 := NUL];
    assert s2[8] == Head[8] && s2[9] == s[9];
    assert Run(s2, 8, {' ', '['} - {NUL}) == 1;
    assert s2[8..9] == ['['];
    assert Count(['['], '[') == 1;
  }

  /**
   * `parse` reads the head as the type string `>a` and the id 7, writing NULs
   * over the closing quote and the comma after the id, and reaches the tag list.
   */
  lemma {:induction false} HeadParse(s: seq<char>, f: Fields)
    requires Headed(s)
    ensures HasNul(s, 0) && HasNul(s[4 := NUL][7 := NUL], 9)
    ensures Drive(Open, s, 0, f) == Drive(FirstTag, s[4 := NUL][7 := NUL], 9, f.(typeStr := At(2), id := 7))
  {
    HeadNul(s);
    var f1 := f.(typeStr := At(2));
    var s1 := s[4 := NUL];
    var s2 := s1[7 := NUL];
    HeadOpen(s, f);
    DriveNext(Open, s, 0, f);
    HeadType(s, f);
    DriveNext(TypeStr, s, 1, f);
    HeadIdSep(s, f1);
    DriveNext(IdSep, s1, 5, f1);
    HeadIdNum(s, f1);
    DriveNext(IdNum, s1, 6, f1);
    HeadTagOpen(s, f1.(id := 7));
    DriveNext(IdEnd(true), s2, 8, f1.(id := 7));
    DriveNext(TagOpen, s2, 8, f1.(id := 7));
  }

  // ---------------------------------------------------------------------------
  // [">a",7,[],[]]
  // ---------------------------------------------------------------------------

  /** `[">a",7,[],[]]` followed by its NUL. */
  const Bare: seq<char> := "[\">a\",7,[],[]]" + [NUL]

  /** `Bare` once the closing quote of the type and the comma after the id are NULs. */
  const Bare2: seq<char> := Bare[4 := NUL][7 := NUL]

  lemma BareLists(f: Fields)
    ensures HasNul(Bare2, 9) && StepAt(FirstTag, Bare2, 9, f) == Next(ArgsOpen, Bare2, 10, f)
    ensures StepAt(ArgsOpen, Bare2, 10, f) == Next(FirstName, Bare2, 12, f)
  {
    assert Bare2[14] == NUL;
    assert BracketStop(Bare2, 12, true) == 12;
    assert BracketStop(Bare2, 11, false) == 12;
    assert BracketStop(Bare2, 10, false) == 12;
    assert Bare2[10..12] == [',', '['];
    assert Count([',', '['], ',') == 1 && Count([',', '['], '[') == 1;
  }

  lemma BareClose(f: Fields)
    ensures HasNul(Bare2, 12) && StepAt(FirstName, Bare2, 12, f) == Next(Close, Bare2, 13, f)
    ensures StepAt(Close, Bare2, 13, f) == Done(Outcome(Ok, Bare2, f))
  {
    assert Bare2[14] == NUL;
  }

  /** `[">a",7,[],[]]` is accepted with type `>a`, id 7, no tags and no arguments. */
  lemma {:induction false} BareParses()
    ensures HasNul(Bare, 0)
    ensures var o := ParseRecord(Bare, Null, 0);
      o.res == Ok && o.buf == Bare2 && o.f == Cleared(At(2), 7)
  {
    assert Bare[..9] == Head && Bare[14] == NUL;
    HeadParse(Bare, Cleared(Null, 0));
    var f := Cleared(At(2), 7);
    BareLists(f);
    DriveNext(FirstTag, Bare2, 9, f);
    DriveNext(ArgsOpen, Bare2, 10, f);
    BareClose(f);
    DriveNext(FirstName, Bare2, 12, f);
    DriveNext(Close, Bare2, 13, f);
  }

  // ---------------------------------------------------------------------------
  // [">a",7,["t"],[{"f":"v"}]]
  // ---------------------------------------------------------------------------

  /** `[">a",7,["t"],[{"f":"v"}]]` followed by its NUL. */
  const Full: seq<char> := "[\">a\",7,[\"t\"],[{\"f\":\"v\"}]]" + [NUL]

  /** `Full` as the scanners leave it: each closing quote, then the name's and the value's. */
  const Full2: seq<char> := Full[4 := NUL][7 := NUL]
  const Full3: seq<char> := Full2[11 := NUL]
  const Full4: seq<char> := Full3[18 := NUL]
  const Full5: seq<char> := Full4[22 := NUL]

  lemma FullTag(f: Fields)
    ensures HasNul(Full2, 9)
    ensures StepAt(FirstTag, Full2, 9, f) == Next(TagSep, Full3, 12, Add(f, Tags, 10, 1))
  {
    assert Full2[26] == NUL;
    assert ClosingQuoteAt(Full2, 11) && QuoteEnd(Full2, 11) == 11;
    assert !ClosingQuoteAt(Full2, 10) && QuoteEnd(Full2, 10) == 11;
  }

  lemma FullTagSep(f: Fields)
    ensures HasNul(Full3, 12) && StepAt(TagSep, Full3, 12, f) == Next(ArgsOpen, Full3, 12, f)
  {
    assert Full3[26] == NUL;
    assert Run(Full3, 12, SeparatorChars) == 0;
    assert Full3[12..12] == [];
  }

  lemma FullArgsOpen(f: Fields)
    ensures HasNul(Full3, 12) && StepAt(ArgsOpen, Full3, 12, f) == Next(FirstName, Full3, 16, f)
  {
    assert Full3[26] == NUL;
    assert BracketStop(Full3, 16, true) == 16;
    assert BracketStop(Full3, 15, true) == 16;
    assert BracketStop(Full3, 14, false) == 16;
    assert BracketStop(Full3, 13, false) == 16;
    assert BracketStop(Full3, 12, false) == 16;
    assert Full3[12..16] == [']', ',', '[', '{'];
    BetweenListsCounts();
  }

  /** What the step between the two lists skips holds one comma, one `[` and one `{`. */
  lemma BetweenListsCounts()
    ensures var t := [']', ',', '[', '{'];
      Count(t, ',') == 1 && Count(t, '[') == 1 && Count(t, '{') == 1
  {
    var t := [']', ',', '[', '{'];
    assert t[..3] == [']', ',', '['];
    assert Count([']'], ',') == 0 && Count([']'], '[') == 0 && Count([']'], '{') == 0;
    assert Count([']', ','], ',') == 1 && Count([']', ','], '[') == 0 && Count([']', ','], '{') == 0;
    assert Count([']', ',', '['], ',') == 1 && Count([']', ',', '['], '[') == 1 && Count([']', ',', '['], '{') == 0;
  }

  lemma FullName(f: Fields)
    ensures HasNul(Full3, 16)
    ensures StepAt(FirstName, Full3, 16, f) == Next(Colon, Full4, 19, Add(f, ArgNames, 17, 1))
  {
    assert Full3[26] == NUL;
    assert ClosingQuoteAt(Full3, 18) && QuoteEnd(Full3, 18) == 18;
    assert !ClosingQuoteAt(Full3, 17) && QuoteEnd(Full3, 17) == 18;
  }

  lemma FullColon(f: Fields)
    ensures HasNul(Full4, 19) && StepAt(Colon, Full4, 19, f) == Next(Value, Full4, 20, f)
  {
    assert Full4[26] == NUL;
    assert Run(Full4, 19, {' ', ':'} - {NUL}) == 1;
    assert Full4[19..20] == [':'];
    assert Count([':'], ':') == 1;
  }

  lemma FullValue(f: Fields)
    ensures HasNul(Full4, 20)
    ensures StepAt(Value, Full4, 20, f) == Next(PairSep, Full5, 23, Add(f, ArgVals, 21, 1))
  {
    assert Full4[26] == NUL;
    assert ClosingQuoteAt(Full4, 22) && QuoteEnd(Full4, 22) == 22;
    assert !ClosingQuoteAt(Full4, 21) && QuoteEnd(Full4, 21) == 22;
  }

  lemma FullPairSep(f: Fields)
    ensures HasNul(Full5, 23) && StepAt(PairSep, Full5, 23, f) == Next(Close, Full5, 25, f)
  {
    assert Full5[26] == NUL;
    assert Run(Full5, 23, CurlyChars) == 1;
    assert Full5[23..24] == ['}'];
    assert Count(['}'], ',') == 0 && Count(['}'], '{') == 0 && Count(['}'], '}') == 1;
  }

  lemma FullClose(f: Fields)
    ensures HasNul(Full5, 25) && StepAt(Close, Full5, 25, f) == Done(Outcome(Ok, Full5, f))
  {
    assert Full5[26] == NUL;
  }

  /** What `FullParses` records: the tag, then the name, then the value. */
  function FullFields(): Fields {
    Add(Add(Add(Cleared(At(2), 7), Tags, 10, 1), ArgNames, 17, 1), ArgVals, 21, 1)
  }

  lemma {:induction false} FullDrive()
    ensures HasNul(Full, 0) && ParseRecord(Full, Null, 0) == Outcome(Ok, Full5, FullFields())
  {
    assert Full[..9] == Head && Full[26] == NUL;
    HeadParse(Full, Cleared(Null, 0));
    var f0 := Cleared(At(2), 7);
    var f1 := Add(f0, Tags, 10, 1);
    var f2 := Add(f1, ArgNames, 17, 1);
    var f3 := Add(f2, ArgVals, 21, 1);
    FullTag(f0);
    DriveNext(FirstTag, Full2, 9, f0);
    FullTagSep(f1);
    DriveNext(TagSep, Full3, 12, f1);
    FullArgsOpen(f1);
    DriveNext(ArgsOpen, Full3, 12, f1);
    FullName(f1);
    DriveNext(FirstName, Full3, 16, f1);
    FullColon(f2);
    DriveNext(Colon, Full4, 19, f2);
    FullValue(f2);
    DriveNext(Value, Full4, 20, f2);
    FullPairSep(f3);
    DriveNext(PairSep, Full5, 23, f3);
    FullClose(f3);
    DriveNext(Close, Full5, 25, f3);
  }

  /**
   * `[">a",7,["t"],[{"f":"v"}]]` is accepted with type `>a`, id 7, the tag at
   * 10, the argument name at 17 and its value at 21, each one byte long.
   */
  lemma FullParses()
    ensures HasNul(Full, 0)
    ensures var o := ParseRecord(Full, Null, 0);
      o.res == Ok && o.buf == Full5 && o.f.typeStr == At(2) && o.f.id == 7 &&
      o.f.tags == [10] && o.f.tagLens == [1] && o.f.totTagLens == 1 &&
      o.f.argNames == [17] && o.f.argNameLens == [1] && o.f.totArgNameLens == 1 &&
      o.f.argVals == [21] && o.f.argValLens == [1] && o.f.totArgValLens == 1
  {
    FullDrive();
  }

  /**
   * The buffer `parse` leaves behind holds the type `>a`, the tag `t`, the
   * name `f` and the value `v` where `FullParses` records them, each ended by
   * the NUL written over its closing quote.
   */
  lemma FullStrings()
    ensures |Full5| == |Full| && Full5[2..5] == ['>', 'a', NUL] && Full5[10..12] == ['t', NUL]
    ensures Full5[17..19] == ['f', NUL] && Full5[21..23] == ['v', NUL]
  {
    assert Full5[2] == '>' && Full5[3] == 'a' && Full5[4] == NUL;
    assert Full5[10] == 't' && Full5[11] == NUL && Full5[17] == 'f' && Full5[18] == NUL;
    assert Full5[21] == 'v' && Full5[22] == NUL;
  }
}
