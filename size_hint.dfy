/**
 The size hint of `extractNumberFromUrl` (FaviconManager.swift, lines 107-117): the last
 run of digits in the last path component of an icon URL, read as an `Int`
 ("icon-72x72.png" gives 72).
 */
module SizeHint {
  import opened Wrappers
  import opened SwiftStrings

  /** `regexReplacePattern("\\D", with: " ")`: every non-digit becomes a space. */
  function MaskNonDigits(s: string): string {
    seq(|s|, k requires 0 <= k < |s| => if IsDigit(s[k]) then s[k] else ' ')
  }

  /** The reverse scan over the parts: the value of the last part `Int(...)` accepts. */
  function LastNumber(parts: seq<string>): (r: Option<int>)
    ensures r.Some? && (forall k :: 0 <= k < |parts| ==> AllDigits(parts[k])) ==> 0 <= r.value <= IntMax
  {
    if parts == [] then None
    else
      match ParseInt(parts[|parts| - 1])
      case Some(v) => Some(v)
      case None => LastNumber(parts[..|parts| - 1])
  }

  /** The number found in one path component. */
  function NumberIn(component: string): (r: Option<int>)
    ensures r.Some? ==> 0 <= r.value <= IntMax
  {
    PartsAreDigits(component);
    LastNumber(Split(MaskNonDigits(component), ' '))
  }

  /** `extractNumberFromUrl`: the number in the last path component of `url`, if any. */
  function ExtractNumberFromUrl(url: string): (r: Option<int>)
    ensures r.Some? ==> 0 <= r.value <= IntMax
  {
    NumberIn(LastPathComponent(url))
  }

  lemma PartsAreDigits(component: string)
    ensures forall k :: 0 <= k < |Split(MaskNonDigits(component), ' ')| ==>
      AllDigits(Split(MaskNonDigits(component), ' ')[k])
  {
    var masked := MaskNonDigits(component);
    var parts := Split(masked, ' ');
    SplitKeepsCharacters(masked, ' ');
    forall k, i | 0 <= k < |parts| && 0 <= i < |parts[k]|
      ensures IsDigit(parts[k][i])
    {
      assert parts[k][i] in parts[k];
      assert parts[k][i] in masked;
      var j :| 0 <= j < |masked| && masked[j] == parts[k][i];
    }
  }

  /** Empty parts never hold a number, so trailing ones are skipped. */
  lemma {:induction false} LastNumberSkipsEmpty(parts: seq<string>, n: nat)
    ensures LastNumber(parts + Repeat([], n)) == LastNumber(parts)
  {
    if n > 0 {
      var longer := parts + Repeat([], n);
      assert longer[..|longer| - 1] == parts + Repeat([], n - 1);
      assert longer[|longer| - 1] == [];
      assert ParseInt(longer[|longer| - 1]) == None;
      assert LastNumber(longer) == LastNumber(longer[..|longer| - 1]);
      LastNumberSkipsEmpty(parts, n - 1);
    } else {
      assert parts + Repeat([], n) == parts;
    }
  }

  /** The last part decides when `Int(...)` accepts it; otherwise the scan moves left. */
  lemma LastNumberAppend(parts: seq<string>, last: string)
    ensures LastNumber(parts + [last]) ==
      if ParseInt(last).Some? then ParseInt(last) else LastNumber(parts)
  {
    assert (parts + [last])[..|parts|] == parts;
  }

  lemma MaskAppend(a: string, b: string)
    ensures MaskNonDigits(a + b) == MaskNonDigits(a) + MaskNonDigits(b)
  {
  }

  lemma NoSpaceInDigits(digits: string)
    requires AllDigits(digits)
    ensures ' ' !in digits
  {
    assert forall i :: 0 <= i < |digits| ==> digits[i] != ' ';
  }

  lemma {:induction false} SplitDigitsThenSpaces(digits: string, n: nat)
    requires AllDigits(digits)
    ensures Split(digits + Repeat(' ', n), ' ') == [digits] + Repeat([], n)
  {
    NoSpaceInDigits(digits);
    SplitWithoutSeparator(digits, ' ');
    if n == 0 {
      assert digits + Repeat(' ', n) == digits;
    } else {
      var spaces := Repeat(' ', n - 1);
      assert digits + Repeat(' ', n) == digits + [' '] + spaces;
      SplitAround(digits, ' ', spaces);
      SplitOnlySeparators(n - 1, ' ');
      assert Split(digits + Repeat(' ', n), ' ') == [digits] + Repeat([], n);
    }
  }

  /** A component without digits holds no number. */
  lemma NoDigitsNoNumber(component: string)
    requires forall k :: 0 <= k < |component| ==> !IsDigit(component[k])
    ensures NumberIn(component) == None
  {
    var n := |component|;
    assert MaskNonDigits(component) == Repeat(' ', n);
    SplitOnlySeparators(n, ' ');
    LastNumberSkipsEmpty([], n + 1);
    var empties: seq<string> := Repeat([], n + 1);
    assert [] + empties == empties;
  }

  /** The parts before a digit run: those of the masked text up to its final space. */
  function PartsBefore(masked: string): seq<string> {
    if masked == [] then [] else Split(masked[..|masked| - 1], ' ')
  }

  lemma SplitMaskedRun(masked: string, digits: string, n: nat)
    requires masked == [] || masked[|masked| - 1] == ' '
    requires AllDigits(digits)
    ensures Split(masked + digits + Repeat(' ', n), ' ') == PartsBefore(masked) + [digits] + Repeat([], n)
  {
    var rest := digits + Repeat(' ', n);
    assert masked + digits + Repeat(' ', n) == masked + rest;
    SplitAfterSpace(masked, rest);
    SplitDigitsThenSpaces(digits, n);
  }

  /** Text after a final space splits on its own. */
  lemma SplitAfterSpace(masked: string, rest: string)
    requires masked == [] || masked[|masked| - 1] == ' '
    ensures Split(masked + rest, ' ') == PartsBefore(masked) + Split(rest, ' ')
  {
    if masked == [] {
      assert masked + rest == rest;
    } else {
      var init := masked[..|masked| - 1];
      assert masked + rest == init + [' '] + rest;
      SplitAround(init, ' ', rest);
    }
  }

  /** A trailing space only adds an empty part, which the scan skips. */
  lemma LastNumberDropsTrailingSpace(init: string)
    ensures LastNumber(Split(init + [' '], ' ')) == LastNumber(Split(init, ' '))
  {
    var empty: string := [];
    assert ParseInt(empty) == None;
    assert init + [' '] == init + [' '] + empty;
    SplitAround(init, ' ', empty);
    LastNumberAppend(Split(init, ' '), empty);
  }

  lemma LastNumberOfMasked(masked: string)
    requires masked == [] || masked[|masked| - 1] == ' '
    ensures LastNumber(Split(masked, ' ')) == LastNumber(PartsBefore(masked))
  {
    if masked == [] {
      var empty: string := [];
      assert ParseInt(empty) == None;
      LastNumberAppend([], empty);
    } else {
      var init := masked[..|masked| - 1];
      assert masked == init + [' '];
      LastNumberDropsTrailingSpace(init);
    }
  }

  /**
   The number in `before + digits + after`, where `digits` is a maximal run and
   `after` has no digit: the run's value when it fits in `Int`; otherwise the scan
   falls back to whatever `before` holds.
   */
  lemma NumberInLastRun(before: string, digits: string, after: string)
    requires digits != [] && AllDigits(digits)
    requires before == [] || !IsDigit(before[|before| - 1])
    requires forall k :: 0 <= k < |after| ==> !IsDigit(after[k])
    ensures NumberIn(before + digits + after) ==
      if DigitsValue(digits) <= IntMax then Some(DigitsValue(digits)) else NumberIn(before)
  {
    var n := |after|;
    var masked := MaskNonDigits(before);
    MaskOfRun(before, digits, after);
    SplitMaskedRun(masked, digits, n);
    LastNumberOfMasked(masked);
    var head := PartsBefore(masked);
    assert head + [digits] + Repeat([], n) == (head + [digits]) + Repeat([], n);
    LastNumberSkipsEmpty(head + [digits], n);
    LastNumberAppend(head, digits);
  }

  lemma MaskOfRun(before: string, digits: string, after: string)
    requires AllDigits(digits)
    requires before == [] || !IsDigit(before[|before| - 1])
    requires forall k :: 0 <= k < |after| ==> !IsDigit(after[k])
    ensures MaskNonDigits(before + digits + after) == MaskNonDigits(before) + digits + Repeat(' ', |after|)
    ensures var m := MaskNonDigits(before); m == [] || m[|m| - 1] == ' '
  {
  }

  /** The number in `dir/before+digits+after` for a maximal last run `digits`. */
  lemma ExtractNumberFromRun(dir: string, before: string, digits: string, after: string)
    requires digits != [] && AllDigits(digits) && DigitsValue(digits) <= IntMax
    requires before == [] || !IsDigit(before[|before| - 1])
    requires forall k :: 0 <= k < |after| ==> !IsDigit(after[k])
    requires '/' !in before + digits + after
    ensures ExtractNumberFromUrl(dir + "/" + (before + digits + after)) == Some(DigitsValue(digits))
  {
    LastPathComponentOf(dir, before + digits + after);
    NumberInLastRun(before, digits, after);
  }

  /** The example of the source comment: `…/icon-72x72.png` gives 72. */
  lemma ExtractNumberExample(url: string)
    requires url == "http://example.com/icon-72x72.png"
    ensures ExtractNumberFromUrl(url) == Some(72)
  {
    var before, digits, after := "icon-72x", "72", ".png";
    assert AllDigits(digits) && DigitsValue(digits) == 72;
    assert !IsDigit(before[|before| - 1]);
    assert forall k :: 0 <= k < |after| ==> !IsDigit(after[k]);
    assert '/' !in before + digits + after;
    assert url == "http://example.com" + "/" + (before + digits + after);
    ExtractNumberFromRun("http://example.com", before, digits, after);
  }

  /** `…/icon-16x16.png` gives 16. */
  lemma SixteenPixelIcon(url: string)
    requires url == "http://example.com/icon-16x16.png"
    ensures ExtractNumberFromUrl(url) == Some(16)
  {
    var before, digits, after := "icon-16x", "16", ".png";
    assert AllDigits(digits) && DigitsValue(digits) == 16;
    assert !IsDigit(before[|before| - 1]);
    assert forall k :: 0 <= k < |after| ==> !IsDigit(after[k]);
    assert '/' !in before + digits + after;
    assert url == "http://example.com" + "/" + (before + digits + after);
    ExtractNumberFromRun("http://example.com", before, digits, after);
  }
}
