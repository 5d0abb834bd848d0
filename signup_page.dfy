/**
 * The sign-up page's password-strength meter: the score, its label, its
 * colour and the width of its bar, and the form state that keeps the score
 * in step with the password field.
 */
module SignupPage {

  predicate IsUpper(c: char) { 'A' <= c <= 'Z' }
  predicate IsLower(c: char) { 'a' <= c <= 'z' }
  predicate IsDigit(c: char) { '0' <= c <= '9' }
  predicate IsAlphanumeric(c: char) { IsUpper(c) || IsLower(c) || IsDigit(c) }

  /** `/[A-Z]/.test(s)` */
  predicate HasUpper(s: string) { exists i :: 0 <= i < |s| && IsUpper(s[i]) }

  /** `/[0-9]/.test(s)` */
  predicate HasDigit(s: string) { exists i :: 0 <= i < |s| && IsDigit(s[i]) }

  /** `/[^A-Za-z0-9]/.test(s)` */
  predicate HasSymbol(s: string) { exists i :: 0 <= i < |s| && !IsAlphanumeric(s[i]) }

  /** `s.length` in JavaScript counts UTF-16 code units: a character beyond U+FFFF counts twice. */
  function Utf16Length(s: string): nat
  {
    if s == [] then 0 else (if s[0] as int > 0xFFFF then 2 else 1) + Utf16Length(s[1..])
  }

  lemma {:induction false} Utf16LengthAppend(p: string, q: string)
    ensures Utf16Length(p + q) == Utf16Length(p) + Utf16Length(q)
  {
    if p != [] {
      assert (p + q)[1..] == p[1..] + q;
      Utf16LengthAppend(p[1..], q);
    } else {
      assert p + q == q;
    }
  }

  function Point(satisfied: bool): nat
  {
    if satisfied then 1 else 0
  }

  /** The four criteria of the meter. */
  predicate LongEnough(p: string) { Utf16Length(p) >= 8 }

  /** The score the meter means: one point for each criterion the password meets. */
  function Strength(p: string): (n: nat)
    ensures n <= 4
  {
    Point(LongEnough(p)) + Point(HasUpper(p)) + Point(HasDigit(p)) + Point(HasSymbol(p))
  }

  lemma EmptyScoresZero()
    ensures Strength("") == 0
  {
  }

  /** The top and bottom of the scale: all four criteria, or none of them. */
  lemma StrengthExtremes(p: string)
    ensures Strength(p) == 4 <==> LongEnough(p) && HasUpper(p) && HasDigit(p) && HasSymbol(p)
    ensures Strength(p) == 0 <==> !LongEnough(p) && !HasUpper(p) && !HasDigit(p) && !HasSymbol(p)
  {
  }

  /** Typing more characters never lowers the score. */
  lemma StrengthMonotone(p: string, q: string)
    ensures Strength(p) <= Strength(p + q)
  {
    var s := p + q;
    Utf16LengthAppend(p, q);
    if HasUpper(p) {
      var i :| 0 <= i < |p| && IsUpper(p[i]);
      assert s[i] == p[i];
    }
    if HasDigit(p) {
      var i :| 0 <= i < |p| && IsDigit(p[i]);
      assert s[i] == p[i];
    }
    if HasSymbol(p) {
      var i :| 0 <= i < |p| && !IsAlphanumeric(p[i]);
      assert s[i] == p[i];
    }
  }

  /** `calculatePasswordStrength`: adds one to a running score for each test that passes. */
  method CalculatePasswordStrength(password: string) returns (strength: nat)
    ensures strength == Strength(password)
    ensures strength <= 4
  {
    if password == "" {
      return 0;
    }
    strength := 0;
    if Utf16Length(password) >= 8 {
      strength := strength + 1;
    }
    if HasUpper(password) {
      strength := strength + 1;
    }
    if HasDigit(password) {
      strength := strength + 1;
    }
    if HasSymbol(password) {
      strength := strength + 1;
    }
  }

  /** The labels of the scores 1 to 4, weakest first. */
  const Labels: seq<string> := ["Weak", "Medium", "Good", "Strong"]

  /** The colour classes of the scores 1 to 4, weakest first. */
  const Colours: seq<string> := ["bg-red-500", "bg-yellow-500", "bg-blue-500", "bg-green-500"]

  const NoColour: string := "bg-gray-200"

  /** `getPasswordStrengthText`. */
  function StrengthText(score: int): (r: string)
    ensures 1 <= score <= 4 ==> r == Labels[score - 1]
    ensures r == "" <==> !(1 <= score <= 4)
  {
    match score
    case 1 => "Weak"
    case 2 => "Medium"
    case 3 => "Good"
    case 4 => "Strong"
    case _ => ""
  }

  /** `getPasswordStrengthColor`. */
  function StrengthColor(score: int): (r: string)
    ensures 1 <= score <= 4 ==> r == Colours[score - 1]
    ensures r == NoColour <==> !(1 <= score <= 4)
  {
    match score
    case 1 => "bg-red-500"
    case 2 => "bg-yellow-500"
    case 3 => "bg-blue-500"
    case 4 => "bg-green-500"
    case _ => "bg-gray-200"
  }

  /** Distinct scores get distinct labels and distinct colours, and a label comes with a colour. */
  lemma LabelsAndColoursAgree(a: int, b: int)
    requires 1 <= a <= 4 && 1 <= b <= 4 && a != b
    ensures StrengthText(a) != StrengthText(b)
    ensures StrengthColor(a) != StrengthColor(b)
    ensures StrengthText(a) != "" && StrengthColor(a) != NoColour
  {
  }

  /** The bar's width in percent: `passwordStrength * 25`. */
  function BarWidth(score: int): int
  {
    score * 25
  }

  /** The bar never overflows its track: empty at 0, full at 4, a quarter per point. */
  lemma BarWidthInRange(p: string)
    ensures 0 <= BarWidth(Strength(p)) <= 100
    ensures BarWidth(Strength(p)) == 100 <==> Strength(p) == 4
    ensures BarWidth(Strength(p)) % 25 == 0
  {
  }

  /** The page's form state: the fields by input name, and the score shown. */
  class SignupForm {
    var form: map<string, string>
    var passwordStrength: int

    /** The shown score is always the score of the password field. */
    ghost predicate Valid()
      reads this
    {
      "password" in form && passwordStrength == Strength(form["password"])
    }

    constructor ()
      ensures Valid()
      ensures form == map["name" := "", "email" := "", "password" := ""] && passwordStrength == 0
    {
      form := map["name" := "", "email" := "", "password" := ""];
      passwordStrength := 0;
    }

    /** `handleChange`: stores the value under the input's name, and rescores only a password change. */
    method HandleChange(name: string, value: string)
      requires Valid()
      modifies this
      ensures Valid()
      ensures form == old(form)[name := value]
      ensures name == "password" ==> passwordStrength == Strength(value)
      ensures name != "password" ==> passwordStrength == old(passwordStrength)
      ensures 0 <= passwordStrength <= 4
    {
      form := form[name := value];
      if name == "password" {
        passwordStrength := CalculatePasswordStrength(value);
      }
    }
  }
}
