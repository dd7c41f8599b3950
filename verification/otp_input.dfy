/** The one-time-password input (client/src/components/auth/OTPInput.tsx): a row of `length`
    one-character boxes, each empty or holding one ASCII digit. Typing, deleting and pasting
    change the boxes, report their concatenation through `onChange`, and move the focus.
    Each handler is a function from the boxes to an `Effect`; the `length` prop is taken
    as fixed for the component's life, as the state it seeds is. */
module OtpInput {
  import opened Common
  import Text

  /** The number of boxes when the caller gives none. */
  const DefaultLength: nat := 6

  datatype Key = Backspace | ArrowLeft | ArrowRight | OtherKey

  /** What a handler does: the boxes afterwards, the value passed to `onChange` if it is
      called, and the box given the focus if one is. */
  datatype Effect = Effect(slots: seq<string>, reported: Option<string>, focus: Option<nat>)

  /** What the pattern `^\d$` accepts: exactly one ASCII digit. */
  predicate IsOneDigit(s: string) {
    |s| == 1 && Text.IsAsciiDigit(s[0])
  }

  predicate IsSlot(s: string) {
    s == "" || IsOneDigit(s)
  }

  predicate WellFormed(slots: seq<string>, length: nat) {
    |slots| == length && forall i :: 0 <= i < |slots| ==> IsSlot(slots[i])
  }

  /** The value `onChange` receives: the boxes joined with nothing between them. */
  function Value(slots: seq<string>): string {
    Text.Join(slots, "")
  }

  function Blanks(n: nat): (r: seq<string>)
    ensures |r| == n && forall i :: 0 <= i < n ==> r[i] == ""
  {
    seq(n, i => "")
  }

  function Singles(s: string): (r: seq<string>)
    ensures |r| == |s| && forall i :: 0 <= i < |s| ==> r[i] == [s[i]]
  {
    seq(|s|, i requires 0 <= i < |s| => [s[i]])
  }

  /** The boxes as first rendered: all empty. */
  function Initial(length: nat): (r: seq<string>)
    ensures WellFormed(r, length) && Value(r) == ""
  {
    JoinSinglesBlanks("", length);
    assert Singles("") + Blanks(length) == Blanks(length);
    Blanks(length)
  }

  /** `inputRefs.current[i]?.focus()`: only an index that has a box focuses anything. */
  function FocusAt(i: int, length: nat): (r: Option<nat>)
    ensures r.Some? <==> 0 <= i < length
    ensures r.Some? ==> r.value == i
  {
    if 0 <= i < length then Some(i) else None
  }

  const Nothing: seq<string> -> Effect := slots => Effect(slots, None, None)

  /** `handleChange`: a disabled input, and any non-empty value other than one digit, change
      nothing; otherwise the box takes the value, the joined boxes are reported, and a
      digit moves the focus to the next box if there is one. */
  function HandleChange(slots: seq<string>, length: nat, disabled: bool, index: nat, digit: string): (e: Effect)
    requires index < |slots|
    ensures e.reported.Some? <==> !disabled && IsSlot(digit)
    ensures e.reported.None? ==> e == Effect(slots, None, None)
    ensures e.reported.Some? ==>
              |e.slots| == |slots| && e.slots[index] == digit &&
              (forall j :: 0 <= j < |slots| && j != index ==> e.slots[j] == slots[j]) &&
              e.reported.value == Value(e.slots)
    ensures e.focus.Some? <==> e.reported.Some? && digit != "" && index + 1 < length
    ensures e.focus.Some? ==> e.focus.value == index + 1
    ensures WellFormed(slots, length) ==> WellFormed(e.slots, length)
  {
    if disabled then Nothing(slots)
    else if digit != "" && !IsOneDigit(digit) then Nothing(slots)
    else
      var next := slots[index := digit];
      Effect(next, Some(Value(next)), if digit != "" && index < length - 1 then FocusAt(index + 1, length) else None)
  }

  /** `handleKeyDown`: Backspace empties the box and reports, moving back a box when it was
      already empty; the arrows move the focus within the row; other keys do nothing. */
  function HandleKeyDown(slots: seq<string>, length: nat, disabled: bool, index: nat, key: Key): (e: Effect)
    requires index < |slots|
    ensures disabled || key != Backspace ==> e.slots == slots && e.reported.None?
    ensures !disabled && key == Backspace ==>
              e.slots == slots[index := ""] && e.reported == Some(Value(e.slots))
    ensures e.focus.Some? <==>
              !disabled && (|| (key == Backspace && slots[index] == "" && 0 < index <= length)
                            || (key == ArrowLeft && 0 < index <= length)
                            || (key == ArrowRight && index + 1 < length))
    ensures e.focus.Some? ==> e.focus.value == if key == ArrowRight then index + 1 else index - 1
    ensures WellFormed(slots, length) ==> WellFormed(e.slots, length)
  {
    if disabled then Nothing(slots)
    else match key
      case Backspace =>
        var next := slots[index := ""];
        Effect(next, Some(Value(next)), if slots[index] == "" && index > 0 then FocusAt(index - 1, length) else None)
      case ArrowLeft =>
        Effect(slots, None, if index > 0 then FocusAt(index - 1, length) else None)
      case ArrowRight =>
        Effect(slots, None, if index < length - 1 then FocusAt(index + 1, length) else None)
      case OtherKey => Nothing(slots)
  }

  /** The text's ASCII digits, in order: what `replace(/\D/g, '')` leaves. */
  function OnlyDigits(text: string): string {
    if text == [] then []
    else if Text.IsAsciiDigit(text[0]) then [text[0]] + OnlyDigits(text[1..])
    else OnlyDigits(text[1..])
  }

  /** `handlePaste`: the pasted text's digits, cut to the number of boxes, fill the boxes
      from the first, the rest are emptied, the digits are reported, and the focus goes to
      the box after the last digit, or the last box. */
  function HandlePaste(slots: seq<string>, length: nat, disabled: bool, text: string): (e: Effect)
    ensures disabled ==> e == Effect(slots, None, None)
    ensures !disabled ==>
              var d := Take(OnlyDigits(text), length);
              && WellFormed(e.slots, length)
              && e.reported == Some(d)
              && (forall i :: 0 <= i < length ==> e.slots[i] == if i < |d| then [d[i]] else "")
              && e.focus == (if length == 0 then None else Some(if |d| < length - 1 then |d| else length - 1))
  {
    if disabled then Nothing(slots)
    else
      var d := Take(OnlyDigits(text), length);
      OnlyDigitsAreDigits(text);
      var next := Singles(d) + Blanks(length - |d|);
      JoinSinglesBlanks(d, length - |d|);
      Effect(next, Some(Value(next)), FocusAt(if |d| < length - 1 then |d| else length - 1, length))
  }

  /** Single characters followed by empty boxes join to those characters. */
  lemma {:induction false} JoinSinglesBlanks(s: string, n: nat)
    ensures Value(Singles(s) + Blanks(n)) == s
    decreases |s| + n
  {
    var parts := Singles(s) + Blanks(n);
    if |s| == 0 {
      if n > 1 {
        JoinSinglesBlanks("", n - 1);
        assert parts[1..] == Singles("") + Blanks(n - 1);
      }
    } else if |parts| > 1 {
      JoinSinglesBlanks(s[1..], n);
      assert parts[1..] == Singles(s[1..]) + Blanks(n);
      assert Value(parts) == [s[0]] + "" + Value(parts[1..]);
      assert s == [s[0]] + s[1..];
    } else {
      assert parts == [[s[0]]] && s == [s[0]];
    }
  }

  /** Each box contributes its own characters, so the reported value of well-formed boxes is
      all digits, at most one per box, and as long as the row exactly when every box is
      filled. */
  lemma {:induction false} ValueOfWellFormed(slots: seq<string>)
    requires forall i :: 0 <= i < |slots| ==> IsSlot(slots[i])
    ensures forall i :: 0 <= i < |Value(slots)| ==> Text.IsAsciiDigit(Value(slots)[i])
    ensures |Value(slots)| <= |slots|
    ensures |Value(slots)| == |slots| <==> forall i :: 0 <= i < |slots| ==> slots[i] != ""
  {
    if |slots| > 1 {
      ValueOfWellFormed(slots[1..]);
      var v := Value(slots);
      var rest := Value(slots[1..]);
      assert v == slots[0] + rest;
      forall i | 0 <= i < |v| ensures Text.IsAsciiDigit(v[i]) {
        if i >= |slots[0]| {
          assert v[i] == rest[i - |slots[0]|];
        }
      }
      if forall i :: 0 <= i < |slots| ==> slots[i] != "" {
        assert forall i :: 0 <= i < |slots[1..]| ==> slots[1..][i] == slots[i + 1];
      }
      if |v| == |slots| {
        assert slots[0] != "";
        forall i | 0 <= i < |slots| ensures slots[i] != "" {
          if i > 0 {
            assert slots[1..][i - 1] == slots[i];
          }
        }
      }
    }
  }

  /** Pasting a code of exactly as many digits as there are boxes reports the code itself,
      and white space or dashes around the digits make no difference. */
  lemma PasteFullCode(slots: seq<string>, code: string, noise: string)
    requires |code| > 0 && forall i :: 0 <= i < |code| ==> Text.IsAsciiDigit(code[i])
    requires forall i :: 0 <= i < |noise| ==> !Text.IsAsciiDigit(noise[i])
    ensures HandlePaste(slots, |code|, false, code).reported == Some(code)
    ensures HandlePaste(slots, |code|, false, noise + code + noise).reported == Some(code)
    ensures HandlePaste(slots, |code|, false, code).focus == Some(|code| - 1)
  {
    OnlyDigitsConcat(noise, code + noise);
    OnlyDigitsConcat(code, noise);
    OnlyDigitsOfNoDigits(noise);
    OnlyDigitsOfDigits(code);
    assert OnlyDigits(code + noise) == code;
    assert OnlyDigits(noise + (code + noise)) == code;
    assert Take(code, |code|) == code;
    assert noise + code + noise == noise + (code + noise);
  }

  lemma {:induction false} OnlyDigitsConcat(a: string, b: string)
    ensures OnlyDigits(a + b) == OnlyDigits(a) + OnlyDigits(b)
  {
    var ab := a + b;
    if a == [] {
      assert ab == b;
    } else {
      OnlyDigitsConcat(a[1..], b);
      assert ab[0] == a[0] && ab[1..] == a[1..] + b;
      var head := if Text.IsAsciiDigit(a[0]) then [a[0]] else [];
      assert OnlyDigits(ab) == head + OnlyDigits(a[1..] + b);
      assert OnlyDigits(a) == head + OnlyDigits(a[1..]);
    }
  }

  /** What is left is all digits, and never longer than the text. */
  lemma {:induction false} OnlyDigitsAreDigits(text: string)
    ensures forall i :: 0 <= i < |OnlyDigits(text)| ==> Text.IsAsciiDigit(OnlyDigits(text)[i])
    ensures |OnlyDigits(text)| <= |text|
  {
    if text != [] {
      OnlyDigitsAreDigits(text[1..]);
    }
  }

  lemma {:induction false} OnlyDigitsOfDigits(s: string)
    requires forall i :: 0 <= i < |s| ==> Text.IsAsciiDigit(s[i])
    ensures OnlyDigits(s) == s
  {
    if s != [] {
      OnlyDigitsOfDigits(s[1..]);
    }
  }

  lemma {:induction false} OnlyDigitsOfNoDigits(s: string)
    requires forall i :: 0 <= i < |s| ==> !Text.IsAsciiDigit(s[i])
    ensures OnlyDigits(s) == ""
  {
    if s != [] {
      OnlyDigitsOfNoDigits(s[1..]);
    }
  }

  /** The reported value does not keep the boxes' positions: a digit typed into the third
      box of an empty row is reported exactly as one typed into the first. */
  lemma ValueForgetsPositions()
    ensures HandleChange(Initial(DefaultLength), DefaultLength, false, 2, "5").reported == Some("5")
    ensures HandleChange(Initial(DefaultLength), DefaultLength, false, 0, "5").reported == Some("5")
  {
    var first := Blanks(6)[0 := "5"];
    assert first == Singles("5") + Blanks(5);
    JoinSinglesBlanks("5", 5);
    var third := Blanks(6)[2 := "5"];
    assert third == Blanks(2) + first[..4];
    JoinBlanksFirst(2, first[..4]);
    assert first[..4] == Singles("5") + Blanks(3);
    JoinSinglesBlanks("5", 3);
  }

  lemma {:induction false} JoinBlanksFirst(n: nat, parts: seq<string>)
    requires |parts| > 0
    ensures Value(Blanks(n) + parts) == Value(parts)
  {
    var all := Blanks(n) + parts;
    if n == 0 {
      assert all == parts;
    } else {
      JoinBlanksFirst(n - 1, parts);
      assert all[1..] == Blanks(n - 1) + parts;
      assert Value(all) == all[0] + "" + Value(all[1..]);
    }
  }

  /** Filling the next box of a row whose first `i` boxes hold the code's first digits. */
  lemma TypeStep(code: string, i: nat)
    requires i < |code| && Text.IsAsciiDigit(code[i])
    ensures var e := HandleChange(Singles(code[..i]) + Blanks(|code| - i), |code|, false, i, [code[i]]);
            e.slots == Singles(code[..i + 1]) + Blanks(|code| - (i + 1)) && e.reported == Some(code[..i + 1])
  {
    JoinSinglesBlanks(code[..i + 1], |code| - (i + 1));
    var a := (Singles(code[..i]) + Blanks(|code| - i))[i := [code[i]]];
    var b := Singles(code[..i + 1]) + Blanks(|code| - (i + 1));
    assert |a| == |b|;
    forall k | 0 <= k < |a| ensures a[k] == b[k] {
      if k < i {
        assert a[k] == [code[..i][k]] && b[k] == [code[..i + 1][k]];
      }
    }
  }

  /** Typing a code box by box, from the first to the last, reports the whole code at the
      last keystroke and leaves every box filled. */
  method TypeCode(code: string) returns (slots: seq<string>, reported: Option<string>)
    requires forall i :: 0 <= i < |code| ==> Text.IsAsciiDigit(code[i])
    ensures slots == Singles(code)
    ensures |code| > 0 ==> reported == Some(code)
  {
    var length := |code|;
    slots := Initial(length);
    reported := None;
    var i := 0;
    assert slots == Singles(code[..0]) + Blanks(length);
    while i < length
      invariant 0 <= i <= length
      invariant slots == Singles(code[..i]) + Blanks(length - i)
      invariant i > 0 ==> reported == Some(code[..i])
    {
      var e := HandleChange(slots, length, false, i, [code[i]]);
      TypeStep(code, i);
      slots, reported := e.slots, e.reported;
      i := i + 1;
    }
    assert code[..i] == code;
    assert Blanks(0) == [];
  }
}
