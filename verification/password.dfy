/** The password generators of the plugin (inline page script and
    script.js) and of the theme: the character set assembled from the
    option flags, the generated password with `Math.random()` draws as
    inputs, and the plugin's 0..7 strength score with its labels. */
module Password {
  import opened Base

  /** The four check boxes. */
  datatype Classes = Classes(upper: bool, lower: bool, numbers: bool, symbols: bool)

  predicate NoneSelected(cl: Classes) {
    !cl.upper && !cl.lower && !cl.numbers && !cl.symbols
  }

  /** The alphabets `ABC…Z`, `abc…z` and `012…9`, in order. */
  const Uppercase: string := CharRange('A', 26)
  const Lowercase: string := CharRange('a', 26)
  const Digits: string := CharRange('0', 10)
  const PluginSymbols: string := "!@#$%^&*()_+[]{}|;:,.<>?"
  const ThemeSymbols: string := "!@#$%^&*()_+-=[]{}|;:,.<>?"

  predicate IsUpper(c: char) {
    'A' <= c <= 'Z'
  }

  predicate IsLower(c: char) {
    'a' <= c <= 'z'
  }

  /** Matched by `[A-Za-z0-9]`. */
  predicate IsAlphanumeric(c: char) {
    IsUpper(c) || IsLower(c) || IsDigit(c)
  }

  // ---------------------------------------------------------------------
  // Character sets
  // ---------------------------------------------------------------------

  /** The `n` consecutive characters from `lo`. */
  function CharRange(lo: char, n: nat): (r: string)
    requires (lo as int) + n < 0xD800
    ensures |r| == n
    ensures forall i :: 0 <= i < n ==> r[i] as int == lo as int + i
  {
    if n == 0 then [] else CharRange(lo, n - 1) + [((lo as int) + n - 1) as char]
  }

  lemma CharRangeMembers(lo: char, n: nat, c: char)
    requires (lo as int) + n < 0xD800
    ensures c in CharRange(lo, n) <==> lo as int <= c as int < lo as int + n
  {
    var r := CharRange(lo, n);
    if lo as int <= c as int < lo as int + n {
      assert r[c as int - lo as int] == c;
    }
  }

  lemma UppercaseMembers(c: char)
    ensures c in Uppercase <==> IsUpper(c)
  {
    CharRangeMembers('A', 26, c);
  }

  lemma LowercaseMembers(c: char)
    ensures c in Lowercase <==> IsLower(c)
  {
    CharRangeMembers('a', 26, c);
  }

  lemma DigitsMembers(c: char)
    ensures c in Digits <==> IsDigit(c)
  {
    CharRangeMembers('0', 10, c);
  }

  /** The three alphabets are exactly the classes `[A-Z]`, `[a-z]`, `[0-9]`. */
  lemma AlphabetMembers(c: char)
    ensures c in Uppercase <==> IsUpper(c)
    ensures c in Lowercase <==> IsLower(c)
    ensures c in Digits <==> IsDigit(c)
  {
    UppercaseMembers(c);
    LowercaseMembers(c);
    DigitsMembers(c);
  }

  /** No symbol is a letter or a digit, so a symbol always earns the
      "special character" point of the score. */
  lemma SymbolsAreNotAlphanumeric()
    ensures forall i :: 0 <= i < |ThemeSymbols| ==> !IsAlphanumeric(ThemeSymbols[i])
    ensures forall i :: 0 <= i < |PluginSymbols| ==> !IsAlphanumeric(PluginSymbols[i])
  {
  }

  /** The theme's symbol set is the plugin's plus `-` and `=`. */
  lemma ThemeSymbolsExtendPlugin(c: char)
    ensures c in ThemeSymbols <==> c in PluginSymbols || c == '-' || c == '='
  {
    assert ThemeSymbols == PluginSymbols[..12] + "-=" + PluginSymbols[12..];
  }

  /** The selected alphabets concatenated in the order upper, lower,
      digits, symbols. */
  function Concat(cl: Classes, symbols: string): string {
    (if cl.upper then Uppercase else [])
    + (if cl.lower then Lowercase else [])
    + (if cl.numbers then Digits else [])
    + (if cl.symbols then symbols else [])
  }

  /** A character is in the concatenation iff its class is selected. */
  lemma ConcatMembers(cl: Classes, symbols: string)
    ensures forall c :: c in Concat(cl, symbols) <==>
      (cl.upper && IsUpper(c)) || (cl.lower && IsLower(c))
      || (cl.numbers && IsDigit(c)) || (cl.symbols && c in symbols)
    ensures Concat(cl, symbols) == [] <==> NoneSelected(cl) || (!cl.upper && !cl.lower && !cl.numbers && symbols == [])
  {
    forall c | true
      ensures c in Concat(cl, symbols) <==>
        (cl.upper && IsUpper(c)) || (cl.lower && IsLower(c))
        || (cl.numbers && IsDigit(c)) || (cl.symbols && c in symbols)
    {
      AlphabetMembers(c);
    }
  }

  /** The plugin's character set: the selected classes, and lowercase when
      none is selected, so it is never empty. */
  function PluginCharset(cl: Classes): (cs: string)
    ensures |cs| > 0
    ensures forall c :: c in cs <==>
      (cl.upper && IsUpper(c)) || ((cl.lower || NoneSelected(cl)) && IsLower(c))
      || (cl.numbers && IsDigit(c)) || (cl.symbols && c in PluginSymbols)
  {
    ConcatMembers(cl, PluginSymbols);
    var cs := Concat(cl, PluginSymbols);
    if cs == [] then
      assert forall c :: c in Lowercase <==> IsLower(c) by {
        forall c | true ensures c in Lowercase <==> IsLower(c) {
          AlphabetMembers(c);
        }
      }
      Lowercase
    else cs
  }

  /** The theme's character set: with no class selected the page alerts
      and generates nothing. */
  function ThemeCharset(cl: Classes): (r: Result<string>)
    ensures r.Err? <==> NoneSelected(cl)
    ensures r.Err? ==> r.message == "Please select at least one character type"
    ensures r.Ok? ==> |r.value| > 0 && forall c :: c in r.value <==>
      (cl.upper && IsUpper(c)) || (cl.lower && IsLower(c))
      || (cl.numbers && IsDigit(c)) || (cl.symbols && c in ThemeSymbols)
  {
    ConcatMembers(cl, ThemeSymbols);
    if NoneSelected(cl) then Err("Please select at least one character type")
    else Ok(Concat(cl, ThemeSymbols))
  }

  // ---------------------------------------------------------------------
  // Generation
  // ---------------------------------------------------------------------

  /** `parseInt(slider.value) || 12` of script.js: an unreadable (NaN) or
      zero length falls back to 12. */
  function ScriptLength(parsed: Option<int>): (n: int)
    ensures n != 0
    ensures parsed.Some? && parsed.value != 0 ==> n == parsed.value
    ensures parsed.None? || parsed.value == 0 ==> n == 12
  {
    match parsed
    case Some(v) => if v != 0 then v else 12
    case None => 12
  }

  /** A random number in [0, 1), as `Math.random()` returns. */
  predicate IsRoll(r: real) {
    0.0 <= r < 1.0
  }

  /** `charset.charAt(Math.floor(roll * charset.length))`. */
  function Pick(charset: string, roll: real): (c: char)
    requires |charset| > 0 && IsRoll(roll)
    ensures c in charset
  {
    var x := roll * |charset| as real;
    ScaledRoll(roll, |charset|);
    FloorBelow(x, |charset|);
    charset[x.Floor]
  }

  /** A roll scaled by `n` stays in [0, n). */
  lemma ScaledRoll(roll: real, n: nat)
    requires IsRoll(roll) && n > 0
    ensures 0.0 <= roll * n as real < n as real
  {
  }

  lemma FloorBelow(x: real, n: nat)
    requires 0.0 <= x < n as real
    ensures 0 <= x.Floor < n
  {
  }

  /** Every character of the set has a roll that picks it. */
  lemma PickReaches(charset: string, j: nat)
    requires j < |charset|
    ensures IsRoll((j as real) / (|charset| as real))
    ensures Pick(charset, (j as real) / (|charset| as real)) == charset[j]
  {
    var roll := (j as real) / (|charset| as real);
    FractionBelowOne(j as real, |charset| as real);
    FractionTimes(j as real, |charset| as real);
    assert roll * |charset| as real == j as real;
    assert (j as real).Floor == j;
  }

  lemma FractionBelowOne(a: real, b: real)
    requires 0.0 <= a < b
    ensures 0.0 <= a / b < 1.0
  {
  }

  lemma FractionTimes(a: real, b: real)
    requires b > 0.0
    ensures (a / b) * b == a
  {
  }

  /** The loop `for (i = 0; i < length; i++) password += Pick(...)`,
      consuming one roll per character; a length of 0 or less runs no
      iteration. */
  method Generate(charset: string, length: int, rolls: seq<real>) returns (password: string)
    requires |charset| > 0
    requires length <= |rolls|
    requires forall i :: 0 <= i < |rolls| ==> IsRoll(rolls[i])
    ensures |password| == if length > 0 then length else 0
    ensures forall i :: 0 <= i < |password| ==> password[i] == Pick(charset, rolls[i])
    ensures forall i :: 0 <= i < |password| ==> password[i] in charset
  {
    password := [];
    var i := 0;
    while i < length
      invariant 0 <= i <= (if length > 0 then length else 0)
      invariant |password| == i
      invariant forall k :: 0 <= k < i ==> password[k] == Pick(charset, rolls[k])
    {
      password := password + [Pick(charset, rolls[i])];
      i := i + 1;
    }
  }

  /** Any string over the character set is a possible password: the rolls
      `j / charset.length` spell it out. */
  lemma EveryPasswordReachable(charset: string, target: string)
    requires |charset| > 0
    requires forall i :: 0 <= i < |target| ==> target[i] in charset
    ensures exists rolls: seq<real> ::
      |rolls| == |target|
      && (forall i :: 0 <= i < |rolls| ==> IsRoll(rolls[i]))
      && (forall i :: 0 <= i < |target| ==> Pick(charset, rolls[i]) == target[i])
  {
    var n := |charset| as real;
    var index := seq(|target|, i requires 0 <= i < |target| => IndexOf(charset, target[i]));
    var rolls := seq(|target|, i requires 0 <= i < |target| => (index[i] as real) / n);
    forall i | 0 <= i < |target|
      ensures IsRoll(rolls[i]) && Pick(charset, rolls[i]) == target[i]
    {
      PickReaches(charset, index[i]);
    }
    assert |rolls| == |target|;
  }

  /** Position of a character in a string that holds it. */
  function IndexOf(s: string, c: char): (j: nat)
    requires c in s
    ensures j < |s| && s[j] == c
  {
    if s[0] == c then 0 else 1 + IndexOf(s[1..], c)
  }

  /** `generatePassword` of script.js. */
  method ScriptGenerate(cl: Classes, parsed: Option<int>, rolls: seq<real>) returns (password: string)
    requires ScriptLength(parsed) <= |rolls|
    requires forall i :: 0 <= i < |rolls| ==> IsRoll(rolls[i])
    ensures |password| == if ScriptLength(parsed) > 0 then ScriptLength(parsed) else 0
    ensures forall i :: 0 <= i < |password| ==> password[i] in PluginCharset(cl)
  {
    password := Generate(PluginCharset(cl), ScriptLength(parsed), rolls);
  }

  /** `generatePassword` of the plugin page: the length is the slider value
      (4..50), read without a fallback. */
  method PageGenerate(cl: Classes, length: int, rolls: seq<real>) returns (password: string)
    requires 4 <= length <= 50 && length <= |rolls|
    requires forall i :: 0 <= i < |rolls| ==> IsRoll(rolls[i])
    ensures |password| == length
    ensures forall i :: 0 <= i < |password| ==> password[i] in PluginCharset(cl)
  {
    password := Generate(PluginCharset(cl), length, rolls);
  }

  /** `generatePassword` of the theme: the slider value (4..64), and an
      alert instead of a password when no class is selected. */
  method ThemeGenerate(cl: Classes, length: int, rolls: seq<real>) returns (r: Result<string>)
    requires 4 <= length <= 64 && length <= |rolls|
    requires forall i :: 0 <= i < |rolls| ==> IsRoll(rolls[i])
    ensures r.Err? <==> NoneSelected(cl)
    ensures r.Err? ==> r.message == "Please select at least one character type"
    ensures r.Ok? ==> |r.value| == length
    ensures r.Ok? ==> forall i :: 0 <= i < |r.value| ==> r.value[i] in ThemeCharset(cl).value
  {
    var cs := ThemeCharset(cl);
    if cs.Err? {
      return Err(cs.message);
    }
    var password := Generate(cs.value, length, rolls);
    return Ok(password);
  }

  // ---------------------------------------------------------------------
  // Strength
  // ---------------------------------------------------------------------

  ghost predicate HasUpper(p: string) {
    exists i :: 0 <= i < |p| && IsUpper(p[i])
  }

  ghost predicate HasLower(p: string) {
    exists i :: 0 <= i < |p| && IsLower(p[i])
  }

  ghost predicate HasDigit(p: string) {
    exists i :: 0 <= i < |p| && IsDigit(p[i])
  }

  /** Matched by `[^A-Za-z0-9]`. */
  ghost predicate HasSpecial(p: string) {
    exists i :: 0 <= i < |p| && !IsAlphanumeric(p[i])
  }

  /** `new Set(password.split('')).size`. */
  function DistinctCount(p: string): nat {
    |set i | 0 <= i < |p| :: p[i]|
  }

  /** `uniqueChars > password.length * 0.6`, on exact rationals. */
  predicate Varied(p: string) {
    5 * DistinctCount(p) > 3 * |p|
  }

  /** Whether `p` has a character of the class, scanning left to right. */
  function Scan(p: string, inClass: char -> bool): (found: bool)
    ensures found <==> exists i :: 0 <= i < |p| && inClass(p[i])
  {
    if |p| == 0 then false
    else if inClass(p[0]) then true
    else
      assert forall i :: 1 <= i < |p| ==> p[i] == p[1..][i - 1];
      Scan(p[1..], inClass)
  }

  function Point(b: bool): nat {
    if b then 1 else 0
  }

  /** `evaluatePasswordStrength`: one point per criterion met. */
  function Score(p: string): (score: nat)
    ensures score <= 7
    ensures score == 7 <==>
      |p| >= 12 && HasUpper(p) && HasLower(p) && HasDigit(p) && HasSpecial(p) && Varied(p)
    ensures |p| < 8 ==> score <= 5
  {
    Point(|p| >= 8) + Point(|p| >= 12)
    + Point(Scan(p, IsUpper)) + Point(Scan(p, IsLower)) + Point(Scan(p, IsDigit))
    + Point(Scan(p, c => !IsAlphanumeric(c)))
    + Point(Varied(p))
  }

  /** A password of one letter case and nothing else earns at most four
      points: length, length, its case, and variety. */
  lemma SingleClassCapped(p: string)
    requires forall i :: 0 <= i < |p| ==> IsLower(p[i])
    ensures Score(p) <= 4
  {
  }

  datatype Strength = Weak | Moderate | Strong | VeryStrong

  /** The label thresholds 7, 5 and 3. */
  function Rate(score: int): (s: Strength)
    ensures s == VeryStrong <==> score >= 7
    ensures s == Strong <==> 5 <= score < 7
    ensures s == Moderate <==> 3 <= score < 5
    ensures s == Weak <==> score < 3
  {
    if score >= 7 then VeryStrong
    else if score >= 5 then Strong
    else if score >= 3 then Moderate
    else Weak
  }

  function Rank(s: Strength): nat {
    match s
    case Weak => 0
    case Moderate => 1
    case Strong => 2
    case VeryStrong => 3
  }

  /** A higher score never gets a weaker label. */
  lemma RateMonotone(a: int, b: int)
    requires a <= b
    ensures Rank(Rate(a)) <= Rank(Rate(b))
  {
  }

  /** With no class selected the plugin draws lowercase only, and the
      result is never rated better than moderate. */
  lemma LowercaseFallbackAtMostModerate(p: string)
    requires forall i :: 0 <= i < |p| ==> p[i] in PluginCharset(Classes(false, false, false, false))
    ensures Rank(Rate(Score(p))) <= Rank(Moderate)
  {
    SingleClassCapped(p);
  }

  /** A password shorter than 8 characters is never rated very strong. */
  lemma ShortNeverVeryStrong(p: string)
    requires |p| < 8
    ensures Rate(Score(p)) != VeryStrong
  {
  }

  /** The CSS class of the strength bar. */
  function ClassName(s: Strength): string {
    match s
    case Weak => "weak"
    case Moderate => "moderate"
    case Strong => "strong"
    case VeryStrong => "very-strong"
  }

  /** The label text of the plugin page. */
  function LabelText(s: Strength): string {
    match s
    case Weak => "WEAK"
    case Moderate => "MODERATE"
    case Strong => "STRONG"
    case VeryStrong => "VERY STRONG"
  }

  function UpperChar(c: char): char {
    if IsLower(c) then (c as int - 32) as char else c
  }

  /** `String.prototype.toUpperCase` on ASCII letters. */
  function UpperAscii(s: string): (r: string)
    ensures |r| == |s|
    ensures forall i :: 0 <= i < |s| && IsLower(s[i]) ==> IsUpper(r[i]) && r[i] as int == s[i] as int - 32
    ensures forall i :: 0 <= i < |s| && !IsLower(s[i]) ==> r[i] == s[i]
  {
    seq(|s|, i requires 0 <= i < |s| => UpperChar(s[i]))
  }

  /** `s.replace('-', ' ')`: the first dash only. */
  function ReplaceFirstDash(s: string): (r: string)
    ensures |r| == |s|
    ensures '-' !in s ==> r == s
  {
    if |s| == 0 then []
    else if s[0] == '-' then " " + s[1..]
    else [s[0]] + ReplaceFirstDash(s[1..])
  }

  /** Only the first dash is replaced. */
  lemma {:induction false} ReplaceFirstDashAt(a: string, b: string)
    requires '-' !in a
    ensures ReplaceFirstDash(a + "-" + b) == a + " " + b
  {
    if |a| > 0 {
      ReplaceFirstDashAt(a[1..], b);
      assert (a + "-" + b)[1..] == a[1..] + "-" + b;
    } else {
      assert a + "-" + b == "-" + b;
    }
  }

  lemma VeryStrongDash()
    ensures ReplaceFirstDash("very-strong") == "very strong"
  {
    VeryStrongWords();
    ReplaceFirstDashAt("very", "strong");
  }

  lemma VeryStrongWords()
    ensures "very-strong" == "very" + "-" + "strong"
    ensures "very" + " " + "strong" == "very strong"
  {
  }

  lemma VeryStrongUpper()
    ensures UpperAscii("very strong") == "VERY STRONG"
  {
  }

  lemma WeakLabel()
    ensures UpperAscii(ReplaceFirstDash("weak")) == "WEAK"
  {
    assert '-' !in "weak";
    assert UpperAscii("weak") == "WEAK";
  }

  lemma ModerateLabel()
    ensures UpperAscii(ReplaceFirstDash("moderate")) == "MODERATE"
  {
    assert '-' !in "moderate";
    assert UpperAscii("moderate") == "MODERATE";
  }

  lemma StrongLabel()
    ensures UpperAscii(ReplaceFirstDash("strong")) == "STRONG"
  {
    assert '-' !in "strong";
    assert UpperAscii("strong") == "STRONG";
  }

  lemma VeryStrongLabel()
    ensures UpperAscii(ReplaceFirstDash("very-strong")) == "VERY STRONG"
  {
    VeryStrongDash();
    VeryStrongUpper();
  }

  /** script.js derives its label from the CSS class,
      `strength.replace('-', ' ').toUpperCase()`; it reads the same as the
      plugin page's label for every strength. */
  lemma ScriptLabelAgrees(s: Strength)
    ensures UpperAscii(ReplaceFirstDash(ClassName(s))) == LabelText(s)
  {
    match s
    case Weak => WeakLabel();
    case Moderate => ModerateLabel();
    case Strong => StrongLabel();
    case VeryStrong => VeryStrongLabel();
  }
}
