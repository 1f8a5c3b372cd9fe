/**
 * The value computation inside the master's updateKey (master/kv.go): the
 * `%+N` / `%-N` delta, the `%1` / `%2` two-field updates and the plain
 * overwrite, lifted out of the store as pure functions. `Merge` follows the
 * code as written; `IntendedMerge` is the corrected form (README, "Findings").
 */
module KvMerge {
  import opened Optional
  import opened Strconv
  import opened GoStrings

  /**
   * What the store's sync.Map holds under a key. Every path stores a Go string,
   * except the %1 / %2 branches of updateKey, which store a *string.
   */
  datatype Stored = Str(text: string) | StrPtr(text: string)

  /** What an update request resolves to once its key and value are known to be present. */
  datatype MergeResult = Write(stored: Stored) | MissingKey

  predicate IsDelta(req: string) { HasPrefix(req, "%+") || HasPrefix(req, "%-") }

  predicate IsField1(req: string) { HasPrefix(req, "%1") }

  predicate IsField2(req: string) { HasPrefix(req, "%2") }

  predicate IsOverwrite(req: string) { !IsDelta(req) && !IsField1(req) && !IsField2(req) }

  function TextOf(prev: Option<Stored>): Option<string> {
    if prev.Some? then Some(prev.value.text) else None
  }

  /**
   * updateKey runs without a panic: the type assertion `oldValue.(string)` of
   * the delta and field branches needs a stored string, and `%1` indexes the
   * second part of a split on '#', so the old text must hold a '#'.
   */
  function MergeDefined(prev: Option<Stored>, req: string): (b: bool)
    ensures prev.None? || IsOverwrite(req) ==> b
    ensures prev.Some? && prev.value.StrPtr? && !IsOverwrite(req) ==> !b
    ensures prev.Some? && prev.value.Str? && (IsDelta(req) || !IsField1(req) || '#' in prev.value.text) ==> b
    ensures prev.Some? && !IsDelta(req) && IsField1(req) && '#' !in prev.value.text ==> !b
  {
    (IsDelta(req) || IsField1(req) || IsField2(req)) ==>
      prev.None? || (prev.value.Str? && (!IsDelta(req) && IsField1(req) ==> '#' in prev.value.text))
  }

  /** The `%+N` / `%-N` result: prev (absent reads as "0") plus the signed delta after '%', as canonical decimal text. */
  function DeltaText(prev: Option<string>, req: string): (r: string)
    requires IsDelta(req)
    ensures IsCanonical(r)
    ensures ParseInt(r) == ParseInt(if prev.Some? then prev.value else "0") + ParseInt(req[1..])
  {
    FormatInt(ParseInt(if prev.Some? then prev.value else "0") + ParseInt(req[1..]))
  }

  /**
   * The `%1` result as written: the whole request (marker included), '#', then
   * prev's second field. A request holding '#' itself puts its own first '#'
   * first, so the old second field ends up behind the request's second part.
   */
  function Field1Text(prev: string, req: string): (r: string)
    requires '#' in prev
    ensures '#' !in req ==> SplitN2(r, '#') == [req, SplitN2(prev, '#')[1]]
    ensures '#' in req ==>
      SplitN2(r, '#') == [SplitN2(req, '#')[0], SplitN2(req, '#')[1] + "#" + SplitN2(prev, '#')[1]]
  {
    var rest := SplitN2(prev, '#')[1];
    if '#' in req then
      var q := SplitN2(req, '#');
      assert req == q[0] + ['#'] + q[1];
      SplitN2Join(q[0], '#', q[1] + "#" + rest);
      assert req + "#" + rest == q[0] + ['#'] + (q[1] + "#" + rest);
      req + "#" + rest
    else
      SplitN2Join(req, '#', rest);
      req + "#" + rest
  }

  /** The `%2` result as written: prev's first field, '#', then the whole request (marker included). */
  function Field2Text(prev: string, req: string): (r: string)
    ensures SplitN2(r, '#') == [SplitN2(prev, '#')[0], req]
  {
    var first := SplitN2(prev, '#')[0];
    SplitN2Join(first, '#', req);
    first + "#" + req
  }

  /** The value updateKey computes for a request `req` against what the key holds, as written. */
  function Merge(prev: Option<Stored>, req: string): (m: MergeResult)
    requires MergeDefined(prev, req)
    ensures m.MissingKey? <==> prev.None? && !IsDelta(req) && (IsField1(req) || IsField2(req))
    ensures m.Write? ==> (m.stored.StrPtr? <==> !IsDelta(req) && (IsField1(req) || IsField2(req)))
  {
    if IsDelta(req) then Write(Str(DeltaText(TextOf(prev), req)))
    else if IsField1(req) then
      if prev.None? then MissingKey else Write(StrPtr(Field1Text(prev.value.text, req)))
    else if IsField2(req) then
      if prev.None? then MissingKey else Write(StrPtr(Field2Text(prev.value.text, req)))
    else Write(Str(req))
  }

  /** `%+N` / `%-N`: the stored string reads back as the prev integer (absent is 0, malformed is 0) plus the delta. */
  lemma MergeDelta(prev: Option<Stored>, req: string)
    requires IsDelta(req) && MergeDefined(prev, req)
    ensures Merge(prev, req).Write? && Merge(prev, req).stored.Str?
    ensures var t := Merge(prev, req).stored.text;
      IsCanonical(t) &&
      ParseInt(t) == (if prev.Some? then ParseInt(prev.value.text) else 0) + ParseInt(req[1..])
  {
    assert "0"[..0] == "";
    assert ParseInt("0") == 0;
  }

  /**
   * `%1`: fails on an absent key; otherwise the first field becomes the whole
   * request and prev's second field is kept. When the request holds a '#' of
   * its own, the first field is the request's text before that '#' and the
   * rest of the request moves in front of prev's second field.
   */
  lemma MergeField1(prev: Option<Stored>, req: string)
    requires IsField1(req) && MergeDefined(prev, req)
    ensures prev.None? <==> Merge(prev, req).MissingKey?
    ensures prev.Some? && '#' !in req ==>
      SplitN2(Merge(prev, req).stored.text, '#') == [req, SplitN2(prev.value.text, '#')[1]]
    ensures prev.Some? && '#' in req ==>
      SplitN2(Merge(prev, req).stored.text, '#')
        == [SplitN2(req, '#')[0], SplitN2(req, '#')[1] + "#" + SplitN2(prev.value.text, '#')[1]]
  {
  }

  /** `%2`: fails on an absent key; otherwise prev's first field is kept and the second becomes the whole request. */
  lemma MergeField2(prev: Option<Stored>, req: string)
    requires IsField2(req) && MergeDefined(prev, req)
    ensures prev.None? <==> Merge(prev, req).MissingKey?
    ensures prev.Some? ==> SplitN2(Merge(prev, req).stored.text, '#') == [SplitN2(prev.value.text, '#')[0], req]
  {
  }

  /** Anything else is stored verbatim, whether or not the key exists. */
  lemma MergeOverwrite(prev: Option<Stored>, req: string)
    requires IsOverwrite(req)
    ensures Merge(prev, req) == Write(Str(req))
  {
  }

  /** A `%1` or `%2` update leaves a *string behind, and the next delta or field update on that key can no longer run. */
  lemma FieldUpdateBlocksLaterMerges(prev: Option<Stored>, req: string, next: string)
    requires (IsField1(req) || IsField2(req)) && MergeDefined(prev, req) && prev.Some?
    requires IsDelta(next) || IsField1(next) || IsField2(next)
    ensures Merge(prev, req).Write?
    ensures !MergeDefined(Some(Merge(prev, req).stored), next)
  {
  }

  /** The corrected merge: the field updates use the text after the two-character marker and store a plain string. */
  function IntendedMerge(prev: Option<Stored>, req: string): (m: MergeResult)
    requires MergeDefined(prev, req)
    ensures m.MissingKey? <==> prev.None? && !IsDelta(req) && (IsField1(req) || IsField2(req))
    ensures m.Write? ==> m.stored.Str?
  {
    if IsDelta(req) then Write(Str(DeltaText(TextOf(prev), req)))
    else if IsField1(req) then
      if prev.None? then MissingKey else Write(Str(req[2..] + "#" + SplitN2(prev.value.text, '#')[1]))
    else if IsField2(req) then
      if prev.None? then MissingKey else Write(Str(SplitN2(prev.value.text, '#')[0] + "#" + req[2..]))
    else Write(Str(req))
  }

  /**
   * The two-field update as intended: `%1x` replaces the first field with `x`,
   * `%2y` the second with `y`, the other field is kept, and what is stored is a
   * string, so a later read or merge of the key can proceed.
   */
  lemma {:induction false} IntendedFieldUpdates(prev: Stored, req: string)
    requires prev.Str? && (IsField1(req) || IsField2(req)) && !IsDelta(req)
    requires MergeDefined(Some(prev), req) && '#' !in req[2..]
    ensures IntendedMerge(Some(prev), req).Write?
    ensures var s := IntendedMerge(Some(prev), req).stored;
      s.Str? &&
      MergeDefined(Some(s), req) &&
      (IsField1(req) ==> SplitN2(s.text, '#') == [req[2..], SplitN2(prev.text, '#')[1]]) &&
      (IsField2(req) ==> SplitN2(s.text, '#') == [SplitN2(prev.text, '#')[0], req[2..]])
  {
    var parts := SplitN2(prev.text, '#');
    if IsField1(req) {
      SplitN2Join(req[2..], '#', parts[1]);
      assert req[2..] + "#" + parts[1] == req[2..] + ['#'] + parts[1];
    } else {
      SplitN2Join(parts[0], '#', req[2..]);
      assert parts[0] + "#" + req[2..] == parts[0] + ['#'] + req[2..];
    }
  }

  /** The input that tells the two apart: on "a#b", `%1x` stores "%1x#b" as written and "x#b" as intended. */
  lemma Field1MarkerExample()
    ensures Merge(Some(Str("a#b")), "%1x") == Write(StrPtr("%1x#b"))
    ensures IntendedMerge(Some(Str("a#b")), "%1x") == Write(Str("x#b"))
  {
    SplitAB();
    assert "%1x"[..2] == "%1";
    FieldWrites("a#b", "%1x");
    assert Field1Text("a#b", "%1x") == "%1x" + "#" + "b";
    assert "%1x"[2..] == "x";
  }

  /** Likewise for `%2y`: "a#%2y" as written, "a#y" as intended. */
  lemma Field2MarkerExample()
    ensures Merge(Some(Str("a#b")), "%2y") == Write(StrPtr("a#%2y"))
    ensures IntendedMerge(Some(Str("a#b")), "%2y") == Write(Str("a#y"))
  {
    SplitAB();
    assert "%2y"[..2] == "%2";
    assert !IsField1("%2y");
    FieldWrites("a#b", "%2y");
    assert Field2Text("a#b", "%2y") == "a" + "#" + "%2y";
    assert "%2y"[2..] == "y";
  }

  /**
   * A `%1` request holding a '#' of its own: on "a#b", "%1x#y" stores
   * "%1x#y#b", whose first field is "%1x" and whose second is "y#b".
   */
  lemma Field1HashExample()
    ensures Merge(Some(Str("a#b")), "%1x#y") == Write(StrPtr("%1x#y#b"))
    ensures SplitN2("%1x#y#b", '#') == ["%1x", "y#b"]
  {
    var req := "%1x#y";
    assert req[..2] == "%1";
    SplitAB();
    FieldWrites("a#b", req);
    SplitN2Join("%1x", '#', "y");
    assert "%1x" + ['#'] + "y" == req;
    assert Field1Text("a#b", req) == req + "#" + "b";
    assert req + "#" + "b" == "%1x#y#b";
    assert "y" + "#" + "b" == "y#b";
  }

  /** A field request on a stored string holding '#' may run, and writes the field text as a *string. */
  lemma FieldWrites(prev: string, req: string)
    requires '#' in prev && (IsField1(req) || IsField2(req))
    requires !HasPrefix(req, "%+") && !HasPrefix(req, "%-")
    ensures MergeDefined(Some(Str(prev)), req)
    ensures IsField1(req) ==> Merge(Some(Str(prev)), req) == Write(StrPtr(Field1Text(prev, req)))
    ensures !IsField1(req) ==> Merge(Some(Str(prev)), req) == Write(StrPtr(Field2Text(prev, req)))
    ensures IsField1(req) ==> IntendedMerge(Some(Str(prev)), req) == Write(Str(req[2..] + "#" + SplitN2(prev, '#')[1]))
    ensures !IsField1(req) ==> IntendedMerge(Some(Str(prev)), req) == Write(Str(SplitN2(prev, '#')[0] + "#" + req[2..]))
  {
  }

  lemma SplitAB()
    ensures SplitN2("a#b", '#') == ["a", "b"]
  {
    SplitN2Join("a", '#', "b");
    assert "a" + ['#'] + "b" == "a#b";
  }

  /** `%+5` on "7" is "12", `%-3` on "12" is "9", and `%+4` on an absent key is "4". */
  lemma DeltaExamples()
    ensures IsDelta("%+5") && DeltaText(Some("7"), "%+5") == "12"
    ensures IsDelta("%-3") && DeltaText(Some("12"), "%-3") == "9"
    ensures IsDelta("%+4") && DeltaText(None, "%+4") == "4"
  {
    assert "%+5"[..2] == "%+" && "%-3"[..2] == "%-" && "%+4"[..2] == "%+";
    assert "%+5"[1..] == "+5" && "%-3"[1..] == "-3" && "%+4"[1..] == "+4";
    assert "+5"[1..] == "5" && "-3"[1..] == "3" && "+4"[1..] == "4";
    assert "12"[..1] == "1" && "1"[..0] == "" && "0"[..0] == "";
    assert ParseInt("7") == 7 && ParseInt("+5") == 5 && ParseInt("12") == 12;
    assert ParseInt("-3") == -3 && ParseInt("0") == 0 && ParseInt("+4") == 4;
    assert ParseInt("9") == 9 && ParseInt("4") == 4;
    FormatParse("12");
    FormatParse("9");
    FormatParse("4");
  }
}
