/** The contact form's client-side rules: the blur-time field validation
    (`validateField`, `clearFieldError`) and the colour bands of the live
    character counter under the message box. Lengths are JavaScript lengths,
    counted in UTF-16 code units. */
module ContactForm {
  import opened Common

  /** A character of the class `[^\s@]`. */
  predicate PlainChar(c: char) {
    !IsJsSpace(c) && c != '@'
  }

  predicate AllPlain(t: string) {
    forall k :: 0 <= k < |t| ==> PlainChar(t[k])
  }

  /** `s` splits as A "@" B "." C with the '@' at `at` and the '.' at `dot`,
      where A, B and C are non-empty runs of `[^\s@]`. */
  predicate EmailSplit(s: string, at: int, dot: int) {
    0 < at && at + 1 < dot && dot + 1 < |s| &&
    s[at] == '@' && s[dot] == '.' &&
    AllPlain(s[..at]) && AllPlain(s[at + 1..dot]) && AllPlain(s[dot + 1..])
  }

  /** The language of `/^[^\s@]+@[^\s@]+\.[^\s@]+$/`. */
  ghost predicate EmailPatternMatches(s: string) {
    exists at, dot :: EmailSplit(s, at, dot)
  }

  /** The index of the first `c` in `s`, or -1. */
  function FirstIndexOf(s: string, c: char): (r: int)
    ensures -1 <= r < |s|
    ensures r == -1 <==> c !in s
    ensures 0 <= r ==> s[r] == c && c !in s[..r]
  {
    if s == [] then -1
    else if s[0] == c then 0
    else
      var i := FirstIndexOf(s[1..], c);
      assert s == [s[0]] + s[1..];
      if i == -1 then -1
      else assert s[..i + 1] == [s[0]] + s[1..][..i]; i + 1
  }

  /** The check the regular expression performs, computed: exactly one '@',
      not in front, no white space, and a '.' with at least one character on
      either side between the '@' and the end. */
  predicate IsValidEmail(s: string) {
    var at := FirstIndexOf(s, '@');
    0 < at && '@' !in s[at + 1..] &&
    (forall k | 0 <= k < |s| :: !IsJsSpace(s[k])) &&
    (exists k | at + 1 < k < |s| - 1 :: s[k] == '.')
  }

  /** The computed check accepts exactly the strings the pattern matches. */
  lemma EmailCheckIsPattern(s: string)
    ensures IsValidEmail(s) <==> EmailPatternMatches(s)
  {
    var at := FirstIndexOf(s, '@');
    if IsValidEmail(s) {
      var dot :| at + 1 < dot < |s| - 1 && s[dot] == '.';
      forall k | 0 <= k < |s| && k != at ensures PlainChar(s[k]) {
        if k < at {
          assert s[k] == s[..at][k];
        } else {
          assert s[k] == s[at + 1..][k - at - 1];
        }
      }
      AllPlainSlice(s, 0, at);
      AllPlainSlice(s, at + 1, dot);
      AllPlainSlice(s, dot + 1, |s|);
      assert s[0..at] == s[..at] && s[dot + 1..|s|] == s[dot + 1..];
      assert EmailSplit(s, at, dot);
    }
    if EmailPatternMatches(s) {
      var a, d :| EmailSplit(s, a, d);
      PlainAt(s, a, d);
      assert s[a] in s;
      assert at <= a;
      forall k | 0 <= k < a ensures s[..a][k] != '@' {
        assert s[..a][k] == s[k];
      }
      assert at == a;
      assert AllPlain(s[at + 1..]) by {
        AllPlainSlice(s, at + 1, |s|);
        assert s[at + 1..|s|] == s[at + 1..];
      }
      assert IsValidEmail(s);
    }
  }

  lemma AllPlainSlice(s: string, i: int, j: int)
    requires 0 <= i <= j <= |s|
    requires forall k :: i <= k < j ==> PlainChar(s[k])
    ensures AllPlain(s[i..j])
  {
    forall k | 0 <= k < j - i ensures PlainChar(s[i..j][k]) {
      assert s[i..j][k] == s[i + k];
    }
  }

  /** Under an email split, every character but the '@' is in `[^\s@]`. */
  lemma PlainAt(s: string, at: int, dot: int)
    requires EmailSplit(s, at, dot)
    ensures forall k :: 0 <= k < |s| && k != at ==> PlainChar(s[k])
  {
    forall k | 0 <= k < |s| && k != at ensures PlainChar(s[k]) {
      if k < at {
        assert s[k] == s[..at][k];
      } else if k < dot {
        assert s[k] == s[at + 1..dot][k - at - 1];
      } else if k > dot {
        assert s[k] == s[dot + 1..][k - dot - 1];
      }
    }
  }

  /** The field as `validateField` reads it. */
  datatype Field = Field(kind: string, tagName: string, required: bool, value: string)

  const EmailMessage := "Please enter a valid email address"
  const TextMessage := "This field is required and must be at least 2 characters"
  const TextareaMessage := "Message must be at least 10 characters long"
  const ErrorBorder := "#dc3545"

  /** The trimmed length as JavaScript measures it. */
  function TrimmedLength(value: string): nat {
    Utf16Length(Trim(value))
  }

  /** The verdict of `validateField`: None when the field is valid, else the
      message. The `type` switch runs first; a required textarea that is too
      short then overrides whatever it found. */
  function Validate(f: Field): (r: Option<string>)
  {
    var bySwitch :=
      if f.kind == "email" then
        (if IsValidEmail(f.value) then None else Some(EmailMessage))
      else if f.kind == "text" then
        (if f.required && TrimmedLength(f.value) < 2 then Some(TextMessage) else None)
      else None;
    if f.tagName == "TEXTAREA" && f.required && TrimmedLength(f.value) < 10
    then Some(TextareaMessage)
    else bySwitch
  }

  /** The three rules, each in both directions: a field is invalid exactly
      when one of them fires, and the textarea rule's message wins. */
  lemma ValidateSpec(f: Field)
    ensures Validate(f).Some? <==>
      (f.kind == "email" && !EmailPatternMatches(f.value)) ||
      (f.kind == "text" && f.required && TrimmedLength(f.value) < 2) ||
      (f.tagName == "TEXTAREA" && f.required && TrimmedLength(f.value) < 10)
    ensures f.tagName == "TEXTAREA" && f.required && TrimmedLength(f.value) < 10 ==>
      Validate(f) == Some(TextareaMessage)
    ensures (f.kind == "email" && !EmailPatternMatches(f.value) &&
             !(f.tagName == "TEXTAREA" && f.required && TrimmedLength(f.value) < 10)) ==>
      Validate(f) == Some(EmailMessage)
  {
    EmailCheckIsPattern(f.value);
  }

  /** A required text field holding only white space is rejected, while a
      required textarea with ten characters that are not white space is
      accepted by the textarea rule. */
  lemma {:induction false} BlankAndLongValues(value: string)
    ensures (forall k :: 0 <= k < |value| ==> IsJsSpace(value[k])) ==>
      Validate(Field("text", "INPUT", true, value)) == Some(TextMessage)
    ensures CountNonSpace(value) >= 10 ==>
      Validate(Field("textarea", "TEXTAREA", true, value)) == None
  {
    if forall k :: 0 <= k < |value| ==> IsJsSpace(value[k]) {
      assert Trim(value) == [];
    }
    TrimKeepsNonSpace(value);
  }

  /** An optional email field is still checked: the empty value is invalid. */
  lemma EmptyEmailIsInvalid(required: bool)
    ensures Validate(Field("email", "INPUT", required, "")) == Some(EmailMessage)
  {
  }

  /** The field's error element and border: `errorText` is None when the page
      has no `<id>-error` element. */
  class FieldView {
    var errorText: Option<string>
    var borderColor: string

    constructor (errorText: Option<string>, borderColor: string)
      ensures this.errorText == errorText && this.borderColor == borderColor
    {
      this.errorText := errorText;
      this.borderColor := borderColor;
    }

    /** `clearFieldError`: empty the error text if there is an element, and
        reset the border in any case. */
    method ClearFieldError()
      modifies this
      ensures errorText == if old(errorText).Some? then Some("") else None
      ensures borderColor == ""
    {
      if errorText.Some? { errorText := Some(""); }
      borderColor := "";
    }

    /** `validateField`: without an error element nothing happens; an invalid
        field shows its message and a red border; a valid one is cleared. */
    method ValidateField(f: Field)
      modifies this
      ensures old(errorText).None? ==> errorText == None && borderColor == old(borderColor)
      ensures old(errorText).Some? && Validate(f).Some? ==>
        errorText == Validate(f) && borderColor == ErrorBorder
      ensures old(errorText).Some? && Validate(f).None? ==>
        errorText == Some("") && borderColor == ""
    {
      if errorText.None? { return; }
      var verdict := Validate(f);
      if verdict.Some? {
        errorText := verdict;
        borderColor := ErrorBorder;
      } else {
        ClearFieldError();
      }
    }
  }

  const CounterRed := "#dc3545"
  const CounterYellow := "#ffc107"

  /** The colour of the character counter for a message of `length` units. */
  function CounterColour(length: nat): (c: string)
    ensures c == CounterRed <==> length > 900
    ensures c == CounterYellow <==> 800 < length <= 900
    ensures c == "" <==> length <= 800
  {
    if length > 900 then CounterRed
    else if length > 800 then CounterYellow
    else ""
  }

  function Severity(c: string): nat {
    if c == CounterRed then 2 else if c == CounterYellow then 1 else 0
  }

  /** A longer message never shows a milder colour. */
  lemma CounterMonotone(m: nat, n: nat)
    requires m <= n
    ensures Severity(CounterColour(m)) <= Severity(CounterColour(n))
  {
  }

  /** The counter element under the message box. */
  class CharCounter {
    var text: string
    var colour: string

    constructor ()
      ensures text == "" && colour == ""
    {
      text, colour := "", "";
    }

    /** The `input` handler: show the length and colour it by its band. */
    method OnInput(value: string)
      modifies this
      ensures text == NatToString(Utf16Length(value))
      ensures colour == CounterColour(Utf16Length(value))
    {
      var length := Utf16Length(value);
      text := NatToString(length);
      colour := CounterColour(length);
    }
  }
}
