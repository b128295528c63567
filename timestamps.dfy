/** Timestamp parsing and clip-range validation of the extractor. */
module Timestamps {
  import opened Wrappers
  import opened JsValues

  /** The longest clip the service accepts, in seconds (ten minutes). */
  const MaxSegmentSeconds: nat := 600

  // ---------------------------------------------------------------------------
  // Separators: `ts.replace(/\./g, ":")` and `split(":")`

  /** Every '.' replaced by ':'. */
  function ReplaceDots(s: string): (r: string)
    ensures |r| == |s|
  {
    if s == [] then [] else [if s[0] == '.' then ':' else s[0]] + ReplaceDots(s[1..])
  }

  /** Each '.' becomes ':', every other character stays, and no '.' is left. */
  lemma {:induction false} ReplaceDotsAt(s: string)
    ensures forall i :: 0 <= i < |s| ==> ReplaceDots(s)[i] == (if s[i] == '.' then ':' else s[i])
    ensures '.' !in ReplaceDots(s)
  {
    if s != [] {
      ReplaceDotsAt(s[1..]);
      var r := ReplaceDots(s);
      assert r == [if s[0] == '.' then ':' else s[0]] + ReplaceDots(s[1..]);
      forall i | 0 <= i < |s| ensures r[i] == (if s[i] == '.' then ':' else s[i]) {
        if i > 0 {
          assert r[i] == ReplaceDots(s[1..])[i - 1];
        }
      }
    }
  }

  /** A string without dots is left as it is. */
  lemma {:induction false} NoDotsUnchanged(s: string)
    requires '.' !in s
    ensures ReplaceDots(s) == s
  {
    if s != [] {
      assert s[0] in s;
      assert forall c :: c in s[1..] ==> c in s;
      NoDotsUnchanged(s[1..]);
      assert s == [s[0]] + s[1..];
    }
  }

  lemma ReplaceDotsIdempotent(s: string)
    ensures ReplaceDots(ReplaceDots(s)) == ReplaceDots(s)
  {
    ReplaceDotsAt(s);
    NoDotsUnchanged(ReplaceDots(s));
  }

  /** The pieces of `s` between colons, as JavaScript's `split(":")` returns them:
      never empty, and an empty piece wherever two separators meet or at either end. */
  function Split(s: string): (parts: seq<string>)
    ensures |parts| >= 1
  {
    if s == [] then [""]
    else
      var rest := Split(s[1..]);
      if s[0] == ':' then [""] + rest
      else [[s[0]] + rest[0]] + rest[1..]
  }

  /** The pieces joined with ':' between them; the inverse of `Split`. */
  function Join(parts: seq<string>): string {
    if parts == [] then ""
    else if |parts| == 1 then parts[0]
    else parts[0] + ":" + Join(parts[1..])
  }

  /** Joining the pieces gives back the string, and no piece holds a colon. */
  lemma JoinSplit(s: string)
    ensures Join(Split(s)) == s
    ensures forall i :: 0 <= i < |Split(s)| ==> ':' !in Split(s)[i]
  {
    JoinOfSplit(s);
    SplitPiecesColonFree(s);
  }

  lemma {:induction false} JoinOfSplit(s: string)
    ensures Join(Split(s)) == s
  {
    if s != [] {
      JoinOfSplit(s[1..]);
      var rest := Split(s[1..]);
      assert s == [s[0]] + s[1..];
      if s[0] == ':' {
        assert Split(s) == [""] + rest;
        if |rest| == 1 {
          assert Join(Split(s)) == "" + ":" + rest[0];
        } else {
          assert Join(Split(s)) == "" + ":" + Join(rest);
        }
      } else {
        var head := [s[0]] + rest[0];
        assert Split(s) == [head] + rest[1..];
        if |rest| != 1 {
          assert Join(rest) == rest[0] + ":" + Join(rest[1..]);
          assert Join(Split(s)) == head + ":" + Join(rest[1..]);
        }
      }
    }
  }

  lemma {:induction false} SplitPiecesColonFree(s: string)
    ensures forall i :: 0 <= i < |Split(s)| ==> ':' !in Split(s)[i]
  {
    if s != [] {
      SplitPiecesColonFree(s[1..]);
      var rest := Split(s[1..]);
      if s[0] != ':' {
        var head := [s[0]] + rest[0];
        assert Split(s) == [head] + rest[1..];
        forall i | 0 <= i < |Split(s)| ensures ':' !in Split(s)[i] {
          if i > 0 {
            assert Split(s)[i] == rest[i];
          }
        }
      }
    }
  }

  lemma {:induction false} SplitPrepend(p: string, s: string)
    requires ':' !in p
    ensures Split(p + s) == [p + Split(s)[0]] + Split(s)[1..]
    decreases |p|
  {
    if p != [] {
      var q := p + s;
      assert p[0] in p;
      assert q[0] == p[0] != ':';
      assert q[1..] == p[1..] + s;
      SplitPrepend(p[1..], s);
      var rest := Split(q[1..]);
      assert rest == [p[1..] + Split(s)[0]] + Split(s)[1..];
      assert rest[0] == p[1..] + Split(s)[0];
      assert rest[1..] == Split(s)[1..];
      assert Split(q) == [[p[0]] + rest[0]] + rest[1..];
      assert [p[0]] + (p[1..] + Split(s)[0]) == p + Split(s)[0];
    } else {
      assert p + s == s;
      assert p + Split(s)[0] == Split(s)[0];
      assert Split(s) == [Split(s)[0]] + Split(s)[1..];
    }
  }

  /** Splitting a join gives back the pieces, provided none of them holds a colon. */
  lemma {:induction false} SplitJoin(parts: seq<string>)
    requires |parts| >= 1
    requires forall i :: 0 <= i < |parts| ==> ':' !in parts[i]
    ensures Split(Join(parts)) == parts
  {
    if |parts| == 1 {
      SplitPrepend(parts[0], "");
      assert parts[0] + "" == parts[0];
    } else {
      var rest := Join(parts[1..]);
      SplitJoin(parts[1..]);
      assert parts[0] + ":" + rest == parts[0] + (":" + rest);
      SplitPrepend(parts[0], ":" + rest);
      assert (":" + rest)[1..] == rest;
      assert Split(":" + rest) == [""] + parts[1..];
      assert parts[0] + "" == parts[0];
    }
  }

  // ---------------------------------------------------------------------------
  // Components: `Number(part)` restricted to digit strings

  predicate IsDigit(c: char) {
    '0' <= c <= '9'
  }

  predicate IsDigits(s: string) {
    forall i :: 0 <= i < |s| ==> IsDigit(s[i])
  }

  /** The decimal value of a digit string; the empty string is 0, as `Number("")` is. */
  function DigitsValue(s: string): nat
    requires IsDigits(s)
  {
    if s == [] then 0 else 10 * DigitsValue(s[..|s| - 1]) + (s[|s| - 1] as int - '0' as int)
  }

  /** `Number(part)` on the forms this model admits; `None` is NaN. */
  function NumberOf(s: string): (r: Option<nat>)
    ensures r.Some? <==> IsDigits(s)
  {
    if IsDigits(s) then Some(DigitsValue(s)) else None
  }

  predicate AllNumeric(parts: seq<string>) {
    forall i :: 0 <= i < |parts| ==> IsDigits(parts[i])
  }

  /** The values of all pieces, or `None` as soon as one of them is not a number. */
  function Numbers(parts: seq<string>): (r: Option<seq<nat>>)
    ensures r.Some? <==> AllNumeric(parts)
    ensures r.Some? ==> |r.value| == |parts|
  {
    if parts == [] then Some([])
    else
      var rest := Numbers(parts[1..]);
      if IsDigits(parts[0]) && rest.Some? then Some([DigitsValue(parts[0])] + rest.value) else None
  }

  /** When all pieces are numeric, each value is the decimal value of its piece. */
  lemma {:induction false} NumbersAt(parts: seq<string>)
    requires AllNumeric(parts)
    ensures forall i :: 0 <= i < |parts| ==> Numbers(parts).value[i] == DigitsValue(parts[i])
  {
    if parts != [] {
      NumbersAt(parts[1..]);
      var v := Numbers(parts).value;
      assert v == [DigitsValue(parts[0])] + Numbers(parts[1..]).value;
      forall i | 0 <= i < |parts| ensures v[i] == DigitsValue(parts[i]) {
        if i > 0 {
          assert v[i] == Numbers(parts[1..]).value[i - 1];
          assert parts[1..][i - 1] == parts[i];
        }
      }
    }
  }

  // ---------------------------------------------------------------------------
  // Base-60 value, most significant component first

  function Pow(b: nat, e: nat): nat {
    if e == 0 then 1 else b * Pow(b, e - 1)
  }

  /** Hours, minutes, seconds (or any number of components) read in base 60. */
  function Base60(vals: seq<nat>): nat {
    if vals == [] then 0 else 60 * Base60(vals[..|vals| - 1]) + vals[|vals| - 1]
  }

  /** The leftmost of k+1 components weighs 60^k: the component at position i counted
      from the right contributes part[i] * 60^i. */
  lemma {:induction false} Base60Prepend(x: nat, vals: seq<nat>)
    ensures Base60([x] + vals) == x * Pow(60, |vals|) + Base60(vals)
    decreases |vals|
  {
    if vals != [] {
      var init := vals[..|vals| - 1];
      assert ([x] + vals)[..|vals|] == [x] + init;
      Base60Prepend(x, init);
      calc {
        Base60([x] + vals);
        60 * Base60([x] + init) + vals[|vals| - 1];
        60 * (x * Pow(60, |init|) + Base60(init)) + vals[|vals| - 1];
        { assert 60 * (x * Pow(60, |init|)) == x * (60 * Pow(60, |init|)); }
        x * Pow(60, |vals|) + Base60(vals);
      }
    }
  }

  // ---------------------------------------------------------------------------
  // parseTimestamp

  /** What `parseTimestamp` returns: `None` (null) for a falsy or non-string input or
      when a component is not a number, otherwise the base-60 value of the components
      after dots have been turned into colons. */
  function TimestampSeconds(ts: Value): Option<nat> {
    if !(ts.Str? && ts.s != "") then None
    else
      match Numbers(Split(ReplaceDots(ts.s)))
      case Some(vals) => Some(Base60(vals))
      case None => None
  }

  /** `parseTimestamp`: splits the cleaned string, maps the pieces to numbers, reverses
      them and accumulates `seconds += parts[i] * 60^i`. */
  method ParseTimestamp(ts: Value) returns (r: Option<nat>)
    ensures r == TimestampSeconds(ts)
  {
    if !Truthy(ts) || !ts.Str? {
      return None;
    }
    var cleaned := ReplaceDots(ts.s);
    var pieces := Split(cleaned);
    // `.map(Number).reverse()`
    var parts := seq(|pieces|, i requires 0 <= i < |pieces| => NumberOf(pieces[|pieces| - 1 - i]));
    ReversedNumbers(pieces, parts);
    if exists i :: 0 <= i < |parts| && parts[i].None? {
      return None;
    }
    ghost var vals := Numbers(pieces).value;
    var seconds: nat := 0;
    var i := 0;
    while i < |parts|
      invariant 0 <= i <= |parts| == |vals|
      invariant forall k :: 0 <= k < |parts| ==> parts[k] == Some(vals[|vals| - 1 - k])
      invariant seconds == Base60(vals[|vals| - i..])
    {
      Base60Step(vals, i);
      seconds := seconds + parts[i].value * Pow(60, i);
      i := i + 1;
    }
    assert vals[|vals| - i..] == vals;
    r := Some(seconds);
  }

  /** One step of the loop: the next component from the right weighs 60^i. */
  lemma Base60Step(vals: seq<nat>, i: nat)
    requires i < |vals|
    ensures Base60(vals[|vals| - 1 - i..]) == vals[|vals| - 1 - i] * Pow(60, i) + Base60(vals[|vals| - i..])
  {
    assert vals[|vals| - 1 - i..] == [vals[|vals| - 1 - i]] + vals[|vals| - i..];
    Base60Prepend(vals[|vals| - 1 - i], vals[|vals| - i..]);
  }

  /** The reversed numbers hold a NaN exactly when some piece is not a number, and
      otherwise they are the piece values in reverse order. */
  lemma ReversedNumbers(pieces: seq<string>, parts: seq<Option<nat>>)
    requires |parts| == |pieces|
    requires forall i :: 0 <= i < |parts| ==> parts[i] == NumberOf(pieces[|pieces| - 1 - i])
    ensures (exists i :: 0 <= i < |parts| && parts[i].None?) <==> Numbers(pieces).None?
    ensures Numbers(pieces).Some? ==>
            forall i :: 0 <= i < |parts| ==> parts[i] == Some(Numbers(pieces).value[|pieces| - 1 - i])
  {
    if Numbers(pieces).Some? {
      NumbersAt(pieces);
    }
    if exists j :: 0 <= j < |pieces| && !IsDigits(pieces[j]) {
      var j :| 0 <= j < |pieces| && !IsDigits(pieces[j]);
      assert parts[|pieces| - 1 - j].None?;
    }
  }

  // ---------------------------------------------------------------------------
  // Properties of parseTimestamp

  /** Colon-separated digit components give the base-60 value of their decimal values. */
  lemma ParseDigitComponents(parts: seq<string>)
    requires |parts| >= 1 && Join(parts) != ""
    requires forall i :: 0 <= i < |parts| ==> IsDigits(parts[i])
    ensures Numbers(parts).Some?
    ensures TimestampSeconds(Str(Join(parts))) == Some(Base60(Numbers(parts).value))
  {
    JoinWithoutDots(parts);
    SplitJoin(parts);
  }

  lemma JoinWithoutDots(parts: seq<string>)
    requires forall i :: 0 <= i < |parts| ==> '.' !in parts[i]
    ensures ReplaceDots(Join(parts)) == Join(parts)
  {
    JoinHasNoDot(parts);
    NoDotsUnchanged(Join(parts));
  }

  lemma {:induction false} JoinHasNoDot(parts: seq<string>)
    requires forall i :: 0 <= i < |parts| ==> '.' !in parts[i]
    ensures '.' !in Join(parts)
  {
    if |parts| > 1 {
      JoinHasNoDot(parts[1..]);
    }
  }

  /** A dot separates components exactly as a colon does. */
  lemma DotsAreColons(s: string)
    ensures TimestampSeconds(Str(s)) == TimestampSeconds(Str(ReplaceDots(s)))
  {
    ReplaceDotsIdempotent(s);
  }

  /** A non-empty string parses to null exactly when one of its components is not a
      number. */
  lemma NullIffNonNumeric(s: string)
    requires s != ""
    ensures TimestampSeconds(Str(s)).None? <==> !AllNumeric(Split(ReplaceDots(s)))
  {
  }

  /** Empty strings, missing fields and non-string values all parse to null. */
  lemma NullForNonText(ts: Value)
    requires !Truthy(ts) || !ts.Str?
    ensures TimestampSeconds(ts) == None
  {
  }

  lemma Base60Two(a: nat, b: nat)
    ensures Base60([a, b]) == 60 * a + b
  {
    assert [a][..0] == [];
    assert Base60([a]) == a;
    assert [a, b][..1] == [a];
    assert Base60([a, b]) == 60 * Base60([a]) + b;
  }

  lemma Base60Three(a: nat, b: nat, c: nat)
    ensures Base60([a, b, c]) == 3600 * a + 60 * b + c
  {
    assert [a, b, c][..2] == [a, b];
    Base60Two(a, b);
  }

  lemma NumbersTwo(mm: string, ss: string)
    requires IsDigits(mm) && IsDigits(ss)
    ensures Numbers([mm, ss]) == Some([DigitsValue(mm), DigitsValue(ss)])
  {
    NumbersOne(ss);
    var p := [mm, ss];
    assert p[1..] == [ss];
    assert [DigitsValue(mm)] + [DigitsValue(ss)] == [DigitsValue(mm), DigitsValue(ss)];
  }

  lemma NumbersOne(ss: string)
    requires IsDigits(ss)
    ensures Numbers([ss]) == Some([DigitsValue(ss)])
  {
    var p := [ss];
    assert p[1..] == [];
    assert [DigitsValue(ss)] + [] == [DigitsValue(ss)];
  }

  lemma NumbersThree(hh: string, mm: string, ss: string)
    requires IsDigits(hh) && IsDigits(mm) && IsDigits(ss)
    ensures Numbers([hh, mm, ss]) == Some([DigitsValue(hh), DigitsValue(mm), DigitsValue(ss)])
  {
    var p := [hh, mm, ss];
    assert p[1..] == [mm, ss];
    NumbersTwo(mm, ss);
    assert [DigitsValue(hh)] + [DigitsValue(mm), DigitsValue(ss)] ==
           [DigitsValue(hh), DigitsValue(mm), DigitsValue(ss)];
  }

  /** `MM:SS` reads as MM * 60 + SS. */
  lemma ParseMinutesSeconds(mm: string, ss: string)
    requires IsDigits(mm) && IsDigits(ss)
    ensures TimestampSeconds(Str(Join([mm, ss]))) == Some(60 * DigitsValue(mm) + DigitsValue(ss))
  {
    var a, b := DigitsValue(mm), DigitsValue(ss);
    NumbersTwo(mm, ss);
    Base60Two(a, b);
    ParseValue([mm, ss], 60 * a + b);
  }

  /** `HH:MM:SS` reads as HH * 3600 + MM * 60 + SS. */
  lemma ParseHoursMinutesSeconds(hh: string, mm: string, ss: string)
    requires IsDigits(hh) && IsDigits(mm) && IsDigits(ss)
    ensures TimestampSeconds(Str(Join([hh, mm, ss]))) ==
            Some(3600 * DigitsValue(hh) + 60 * DigitsValue(mm) + DigitsValue(ss))
  {
    var p := [hh, mm, ss];
    var a, b, c := DigitsValue(hh), DigitsValue(mm), DigitsValue(ss);
    NumbersThree(hh, mm, ss);
    Base60Three(a, b, c);
    assert p[1..] == [mm, ss];
    ParseValue(p, 3600 * a + 60 * b + c);
  }

  /** Digit components whose base-60 value is `n` parse to `n`. */
  lemma ParseValue(parts: seq<string>, n: nat)
    requires |parts| >= 1 && Join(parts) != "" && Numbers(parts).Some?
    requires Base60(Numbers(parts).value) == n
    ensures TimestampSeconds(Str(Join(parts))) == Some(n)
  {
    ParseDigitComponents(parts);
  }

  lemma DigitExamples()
    ensures IsDigits("0") && IsDigits("1") && IsDigits("01") && IsDigits("30")
    ensures DigitsValue("0") == 0 && DigitsValue("1") == 1
    ensures DigitsValue("01") == 1 && DigitsValue("30") == 30
  {
  }

  lemma ParseExampleMinutes()
    ensures TimestampSeconds(Str("1:30")) == Some(90)
  {
    DigitExamples();
    ParseMinutesSeconds("1", "30");
    assert Join(["1", "30"]) == "1:30";
  }

  lemma ParseExampleHours()
    ensures TimestampSeconds(Str("1:01:01")) == Some(3661)
  {
    DigitExamples();
    ParseHoursMinutesSeconds("1", "01", "01");
    assert Join(["01", "01"]) == "01:01";
    assert Join(["1", "01", "01"]) == "1:01:01";
  }

  lemma ParseExampleColon()
    ensures TimestampSeconds(Str("0:30")) == Some(30)
  {
    DigitExamples();
    ParseMinutesSeconds("0", "30");
    assert Join(["0", "30"]) == "0:30";
  }

  /** "0.30" reads as "0:30", that is, as 30 seconds. */
  lemma ParseExampleDot()
    ensures TimestampSeconds(Str("0.30")) == Some(30)
  {
    ParseExampleColon();
    DotsAreColons("0.30");
    assert ReplaceDots("0.30") == "0:30";
  }

  /** `Number("")` is 0, so an empty component counts as zero. */
  lemma ParseEmptyComponent()
    ensures TimestampSeconds(Str("1:")) == Some(60)
  {
    ParseDigitComponents(["1", ""]);
    assert Join(["1", ""]) == "1:";
  }

  lemma ParseNonNumeric()
    ensures TimestampSeconds(Str("1:x")) == None
  {
    assert Join(["1", "x"]) == "1:x";
    SplitJoin(["1", "x"]);
    assert ReplaceDots("1:x") == "1:x";
    assert !IsDigits("x");
  }

  // ---------------------------------------------------------------------------
  // validateTimestamps

  datatype RangeError = InvalidTimestamps | EndNotAfterStart | SegmentTooLong

  function Message(e: RangeError): string {
    match e
    case InvalidTimestamps => "invalid timestamps"
    case EndNotAfterStart => "end must be after start"
    case SegmentTooLong => "segment too long (max 600s)"
  }

  /** The invariant of an accepted clip request: a non-empty range of at most
      `MaxSegmentSeconds`. */
  predicate ValidRange(startSec: nat, endSec: nat) {
    startSec < endSec && endSec - startSec <= MaxSegmentSeconds
  }

  /** `validateTimestamps`: a missing bound first, then the ordering, then the length. */
  function ValidateTimestamps(startSec: Option<nat>, endSec: Option<nat>): (r: Option<RangeError>)
    ensures r.None? <==> startSec.Some? && endSec.Some? && ValidRange(startSec.value, endSec.value)
    ensures r == Some(InvalidTimestamps) <==> startSec.None? || endSec.None?
    ensures r == Some(EndNotAfterStart) <==>
            startSec.Some? && endSec.Some? && endSec.value <= startSec.value
    ensures r == Some(SegmentTooLong) <==>
            startSec.Some? && endSec.Some? && startSec.value < endSec.value &&
            endSec.value - startSec.value > MaxSegmentSeconds
  {
    if startSec.None? || endSec.None? then Some(InvalidTimestamps)
    else if endSec.value <= startSec.value then Some(EndNotAfterStart)
    else if endSec.value - startSec.value > MaxSegmentSeconds then Some(SegmentTooLong)
    else None
  }

  lemma ValidateExamples()
    ensures ValidateTimestamps(Some(30), Some(20)) == Some(EndNotAfterStart)
    ensures ValidateTimestamps(Some(0), Some(700)) == Some(SegmentTooLong)
    ensures ValidateTimestamps(Some(0), Some(300)) == None
    ensures ValidateTimestamps(Some(0), Some(600)) == None
    ensures ValidateTimestamps(None, Some(600)) == Some(InvalidTimestamps)
  {
  }
}
