/** Shared vocabulary of the browser tools: an option type, the JavaScript
    notion of white space, `trim`, `split` on a character and on a run of
    separator characters, joining, and decimal rendering of numbers. */
module Base {

  datatype Option<T> = None | Some(value: T)

  /** A computed result, or the message of the alert or toast that the tool
      shows instead of a result. */
  datatype Result<T> = Ok(value: T) | Err(message: string)

  /** JavaScript white space as matched by `\s` and removed by `trim()`:
      the WhiteSpace and LineTerminator code points of ECMAScript. */
  predicate IsSpace(c: char) {
    c == '\t' || c == '\n' || c == '\U{B}' || c == '\U{C}' || c == '\r' || c == ' '
    || c == '\U{A0}' || c == '\U{1680}' || ('\U{2000}' <= c <= '\U{200A}')
    || c == '\U{2028}' || c == '\U{2029}' || c == '\U{202F}' || c == '\U{205F}'
    || c == '\U{3000}' || c == '\U{FEFF}'
  }

  predicate AllSpace(s: string) {
    forall i :: 0 <= i < |s| ==> IsSpace(s[i])
  }

  /** `s.trimStart()`: drops the leading white space. */
  function TrimStart(s: string): (r: string)
    ensures |r| <= |s| && r == s[|s| - |r|..]
    ensures AllSpace(s[..|s| - |r|])
    ensures r == [] || !IsSpace(r[0])
  {
    if |s| > 0 && IsSpace(s[0]) then
      var r := TrimStart(s[1..]);
      TrimStartStep(s, r);
      r
    else s
  }

  lemma TrimStartStep(s: string, r: string)
    requires |s| > 0 && IsSpace(s[0])
    requires |r| <= |s| - 1 && r == s[1..][|s| - 1 - |r|..]
    requires AllSpace(s[1..][..|s| - 1 - |r|])
    ensures r == s[|s| - |r|..]
    ensures AllSpace(s[..|s| - |r|])
  {
    assert s[..|s| - |r|] == [s[0]] + s[1..][..|s| - 1 - |r|];
  }

  /** `s.trimEnd()`: drops the trailing white space. */
  function TrimEnd(s: string): (r: string)
    ensures |r| <= |s| && r == s[..|r|]
    ensures AllSpace(s[|r|..])
    ensures r == [] || !IsSpace(r[|r| - 1])
  {
    if |s| > 0 && IsSpace(s[|s| - 1]) then
      var r := TrimEnd(s[..|s| - 1]);
      assert s[|r|..] == s[..|s| - 1][|r|..] + [s[|s| - 1]];
      r
    else s
  }

  /** `s.trim()`. */
  function Trim(s: string): string {
    TrimEnd(TrimStart(s))
  }

  /** The JavaScript test `s.trim() === ''`: the text holds only white space. */
  predicate IsBlank(s: string) {
    Trim(s) == []
  }

  lemma BlankIffAllSpace(s: string)
    ensures IsBlank(s) <==> AllSpace(s)
  {
    var t := TrimStart(s);
    var r := TrimEnd(t);
    if r == [] {
      assert s[..|s| - |t|] == s;
    } else {
      assert !IsSpace(r[0]);
      assert r[0] == s[|s| - |t|];
    }
  }

  /** Trimming leaves nothing to trim: both ends are non-space. */
  lemma TrimEnds(s: string)
    ensures Trimmed(Trim(s))
  {
    var t := TrimStart(s);
    var r := TrimEnd(t);
    if r != [] {
      assert r[0] == t[0];
    }
  }

  /** The filter `s => s` on strings: the empty string is falsy. */
  predicate NonEmpty(w: string) {
    |w| > 0
  }

  /** The filter `s => s.trim()` (or `s.trim().length > 0`). */
  predicate NotBlank(w: string) {
    !IsBlank(w)
  }

  /** A string with no white space at either end, as `trim()` leaves it. */
  predicate Trimmed(s: string) {
    s == [] || (!IsSpace(s[0]) && !IsSpace(s[|s| - 1]))
  }

  /** Trimming only removes characters. */
  lemma TrimKeepsChars(s: string)
    ensures forall c :: c in Trim(s) ==> c in s
  {
    var t := TrimStart(s);
    assert forall c :: c in t ==> c in s;
  }

  /** A text that already starts and ends with non-space is its own trim. */
  lemma TrimOfTrimmed(s: string)
    requires Trimmed(s)
    ensures Trim(s) == s
  {
  }

  predicate StartsWith(s: string, prefix: string) {
    |prefix| <= |s| && s[..|prefix|] == prefix
  }

  /** `s.includes(t)` for a string `t`. */
  predicate Contains(s: string, t: string) {
    exists i {:trigger s[i..]} :: 0 <= i <= |s| - |t| && s[i..][..|t|] == t
  }

  function Count(s: string, c: char): nat {
    multiset(s)[c]
  }

  /** `parts.join(sep)`. */
  function Join(parts: seq<string>, sep: string): string {
    if |parts| == 0 then []
    else if |parts| == 1 then parts[0]
    else parts[0] + sep + Join(parts[1..], sep)
  }

  /** `s.split(c)` for a one-character separator: the pieces between the
      occurrences of `c`, one more piece than there are occurrences. */
  function Split(s: string, c: char): (r: seq<string>)
    ensures |r| == Count(s, c) + 1
    ensures forall i :: 0 <= i < |r| ==> c !in r[i]
  {
    if |s| == 0 then [[]]
    else
      var rest := Split(s[1..], c);
      assert s == [s[0]] + s[1..];
      FrontCount(s[0], s[1..], c, rest);
      FrontPieces(s[0], rest, c);
      AddToFront(s[0], rest, c)
  }

  /** Joining the pieces with the separator gives the text back. */
  lemma {:induction false} JoinSplit(s: string, c: char)
    ensures Join(Split(s, c), [c]) == s
  {
    if |s| > 0 {
      JoinSplit(s[1..], c);
      FrontJoin(s[0], s[1..], c, Split(s[1..], c));
      assert s == [s[0]] + s[1..];
    }
  }

  /** The pieces of `[x] + t` from the pieces of `t`: a separator opens a
      new empty piece, any other character joins the first piece. */
  function AddToFront(x: char, rest: seq<string>, c: char): (r: seq<string>)
    requires |rest| >= 1
    ensures |r| == if x == c then |rest| + 1 else |rest|
  {
    if x == c then [[]] + rest else [[x] + rest[0]] + rest[1..]
  }

  lemma FrontPieces(x: char, rest: seq<string>, c: char)
    requires |rest| >= 1
    requires forall i :: 0 <= i < |rest| ==> c !in rest[i]
    ensures forall i :: 0 <= i < |AddToFront(x, rest, c)| ==> c !in AddToFront(x, rest, c)[i]
  {
  }

  lemma FrontCount(x: char, t: string, c: char, rest: seq<string>)
    requires |rest| == Count(t, c) + 1
    ensures |AddToFront(x, rest, c)| == Count([x] + t, c) + 1
  {
    assert multiset([x] + t) == multiset{x} + multiset(t);
  }

  lemma FrontJoin(x: char, t: string, c: char, rest: seq<string>)
    requires |rest| >= 1 && Join(rest, [c]) == t
    ensures Join(AddToFront(x, rest, c), [c]) == [x] + t
  {
    if x == c {
      JoinCons([], rest, [c]);
      assert [] + [c] + t == [x] + t;
    } else if |rest| > 1 {
      FrontJoinLong(x, c, rest);
    } else {
      assert AddToFront(x, rest, c) == [[x] + rest[0]];
    }
  }

  lemma FrontJoinLong(x: char, c: char, rest: seq<string>)
    requires |rest| > 1 && x != c
    ensures Join([[x] + rest[0]] + rest[1..], [c]) == [x] + Join(rest, [c])
  {
    JoinCons([x] + rest[0], rest[1..], [c]);
    JoinCons(rest[0], rest[1..], [c]);
    assert [rest[0]] + rest[1..] == rest;
    var j := Join(rest[1..], [c]);
    assert ([x] + rest[0]) + [c] + j == [x] + (rest[0] + [c] + j);
  }

  lemma JoinCons(p: string, rest: seq<string>, sep: string)
    requires |rest| >= 1
    ensures Join([p] + rest, sep) == p + sep + Join(rest, sep)
  {
    assert ([p] + rest)[1..] == rest;
  }

  /** A text without the separator is a single piece. */
  lemma {:induction false} SplitNone(s: string, c: char)
    requires c !in s
    ensures Split(s, c) == [s]
  {
    if |s| > 0 {
      SplitNone(s[1..], c);
      assert [s[0]] + s[1..] == s;
    }
  }

  /** The first occurrence of the separator ends the first piece. */
  lemma {:induction false} SplitAround(a: string, b: string, c: char)
    requires c !in a
    ensures Split(a + [c] + b, c) == [a] + Split(b, c)
  {
    if |a| == 0 {
      assert a + [c] + b == [c] + b;
      SplitFront([c] + b, c);
    } else {
      assert c !in a[1..] by {
        assert forall x :: x in a[1..] ==> x in a;
      }
      SplitAround(a[1..], b, c);
      SplitAroundStep(a, b, c);
    }
  }

  lemma SplitAroundStep(a: string, b: string, c: char)
    requires |a| > 0 && a[0] != c
    requires Split(a[1..] + [c] + b, c) == [a[1..]] + Split(b, c)
    ensures Split(a + [c] + b, c) == [a] + Split(b, c)
  {
    UnfoldAround(a, b, c);
    assert [a[0]] + a[1..] == a;
  }

  lemma UnfoldAround(a: string, b: string, c: char)
    requires |a| > 0
    ensures Split(a + [c] + b, c) == AddToFront(a[0], Split(a[1..] + [c] + b, c), c)
  {
    var s := a + [c] + b;
    assert s[1..] == a[1..] + [c] + b;
    SplitFront(s, c);
  }

  /** `Split` unfolded once. */
  lemma SplitFront(s: string, c: char)
    requires |s| > 0
    ensures Split(s, c) == AddToFront(s[0], Split(s[1..], c), c)
  {
  }

  /** Length of the maximal prefix of separator characters. */
  function SeparatorRun(s: string, isSep: char -> bool): (n: nat)
    ensures n <= |s|
    ensures forall i :: 0 <= i < n ==> isSep(s[i])
    ensures n == |s| || !isSep(s[n])
  {
    if |s| > 0 && isSep(s[0]) then 1 + SeparatorRun(s[1..], isSep) else 0
  }

  /** `s.split(/[…]+/)`: the pieces between maximal runs of separator
      characters; a leading or trailing run yields an empty first or last
      piece, as in JavaScript. */
  function SplitRuns(s: string, isSep: char -> bool): (r: seq<string>)
    ensures |r| >= 1
    ensures forall i, k :: 0 <= i < |r| && 0 <= k < |r[i]| ==> !isSep(r[i][k])
    ensures forall i, k :: 0 <= i < |r| && 0 <= k < |r[i]| ==> r[i][k] in s
    ensures r[0] == [] <==> (s == [] || isSep(s[0]))
    decreases |s|
  {
    if |s| == 0 then [[]]
    else if isSep(s[0]) then
      var n := SeparatorRun(s, isSep);
      var rest := SplitRuns(s[n..], isSep);
      assert forall x :: x in s[n..] ==> x in s;
      [[]] + rest
    else
      var rest := SplitRuns(s[1..], isSep);
      assert forall x :: x in s[1..] ==> x in s;
      [[s[0]] + rest[0]] + rest[1..]
  }

  /** A text that starts and ends with a non-separator splits into
      non-empty pieces only. */
  lemma {:induction false} SplitRunsNonEmpty(s: string, isSep: char -> bool)
    requires s == [] || !isSep(s[|s| - 1])
    ensures forall i :: 1 <= i < |SplitRuns(s, isSep)| ==> |SplitRuns(s, isSep)[i]| > 0
    ensures s != [] && !isSep(s[0]) ==> forall i :: 0 <= i < |SplitRuns(s, isSep)| ==> |SplitRuns(s, isSep)[i]| > 0
    decreases |s|
  {
    if |s| > 0 {
      if isSep(s[0]) {
        var n := SeparatorRun(s, isSep);
        assert n < |s|;
        SplitRunsNonEmpty(s[n..], isSep);
      } else {
        SplitRunsNonEmpty(s[1..], isSep);
      }
    }
  }

  /** `SplitRuns` unfolded once at a leading separator run. */
  lemma SplitRunsAtSeparator(s: string, isSep: char -> bool)
    requires |s| > 0 && isSep(s[0])
    ensures SplitRuns(s, isSep) == [[]] + SplitRuns(s[SeparatorRun(s, isSep)..], isSep)
  {
  }

  /** `SplitRuns` unfolded once at a leading non-separator. */
  lemma SplitRunsAtChar(s: string, isSep: char -> bool)
    requires |s| > 0 && !isSep(s[0])
    ensures var rest := SplitRuns(s[1..], isSep);
            SplitRuns(s, isSep) == [[s[0]] + rest[0]] + rest[1..]
  {
  }

  /** A character found in a later piece is found in the same piece after
      one more piece is put in front. */
  lemma InShiftedPiece(x: char, rest: seq<string>, i: nat)
    requires i < |rest| && x in rest[i]
    ensures exists j :: 0 <= j < |[[]] + rest| && x in ([[]] + rest)[j]
  {
    assert ([[]] + rest)[i + 1] == rest[i];
  }

  /** A character found in some piece is still found once a character is
      glued to the front of the first piece. */
  lemma InGluedPiece(c: char, x: char, rest: seq<string>, i: nat)
    requires 1 <= |rest| && i < |rest| && x in rest[i]
    ensures var r := [[c] + rest[0]] + rest[1..];
            exists j :: 0 <= j < |r| && x in r[j]
  {
    var r := [[c] + rest[0]] + rest[1..];
    if i == 0 {
      assert x in r[0];
    } else {
      assert r[i] == rest[i];
    }
  }

  /** Every non-separator character of the text lands in some piece. */
  lemma {:induction false} SplitRunsKeeps(s: string, isSep: char -> bool, k: nat)
    requires k < |s| && !isSep(s[k])
    ensures exists i :: 0 <= i < |SplitRuns(s, isSep)| && s[k] in SplitRuns(s, isSep)[i]
    decreases |s|
  {
    if isSep(s[0]) {
      var n := SeparatorRun(s, isSep);
      var rest := SplitRuns(s[n..], isSep);
      assert k >= n;
      SplitRunsKeeps(s[n..], isSep, k - n);
      var i :| 0 <= i < |rest| && s[n..][k - n] in rest[i];
      SplitRunsAtSeparator(s, isSep);
      InShiftedPiece(s[k], rest, i);
    } else {
      var rest := SplitRuns(s[1..], isSep);
      SplitRunsAtChar(s, isSep);
      if k == 0 {
        assert ([s[0]] + rest[0])[0] == s[0];
      } else {
        SplitRunsKeeps(s[1..], isSep, k - 1);
        var i :| 0 <= i < |rest| && s[1..][k - 1] in rest[i];
        InGluedPiece(s[0], s[k], rest, i);
      }
    }
  }

  /** The pieces of `parts` that satisfy `keep`, in order (`Array.filter`). */
  function Filter(parts: seq<string>, keep: string -> bool): (r: seq<string>)
    ensures |r| <= |parts|
    ensures forall i :: 0 <= i < |r| ==> keep(r[i]) && r[i] in parts
    ensures forall i :: 0 <= i < |parts| && keep(parts[i]) ==> parts[i] in r
    ensures (forall i :: 0 <= i < |parts| ==> keep(parts[i])) ==> r == parts
  {
    if |parts| == 0 then []
    else if keep(parts[0]) then [parts[0]] + Filter(parts[1..], keep)
    else Filter(parts[1..], keep)
  }

  /** A property every piece has survives filtering, next to the filter's
      own test. */
  lemma FilterKeeps(parts: seq<string>, keep: string -> bool, good: string -> bool)
    requires forall i :: 0 <= i < |parts| ==> good(parts[i])
    ensures forall p :: p in Filter(parts, keep) ==> keep(p) && good(p)
  {
    var r := Filter(parts, keep);
    forall p | p in r
      ensures keep(p) && good(p)
    {
      var j :| 0 <= j < |r| && r[j] == p;
      var i :| 0 <= i < |parts| && parts[i] == p;
    }
  }

  function DigitChar(d: nat): char
    requires d < 10
  {
    "0123456789"[d]
  }

  predicate IsDigit(c: char) {
    '0' <= c <= '9'
  }

  /** Decimal rendering of a natural number, as `String(n)` prints it. */
  function NatToString(n: nat): (r: string)
    ensures |r| >= 1
    ensures forall i :: 0 <= i < |r| ==> IsDigit(r[i])
    ensures |r| > 1 ==> r[0] != '0'
  {
    if n < 10 then [DigitChar(n)] else NatToString(n / 10) + [DigitChar(n % 10)]
  }

  function DigitValue(c: char): nat
    requires IsDigit(c)
  {
    (c as int) - ('0' as int)
  }

  /** Value of a string of decimal digits. */
  function DigitsValue(s: string): nat
    requires forall i :: 0 <= i < |s| ==> IsDigit(s[i])
  {
    if |s| == 0 then 0
    else 10 * DigitsValue(s[..|s| - 1]) + DigitValue(s[|s| - 1])
  }

  /** Reading the rendered digits back gives the number again. */
  lemma {:induction false} NatToStringRoundTrip(n: nat)
    ensures DigitsValue(NatToString(n)) == n
  {
    var r := NatToString(n);
    if n >= 10 {
      NatToStringRoundTrip(n / 10);
      assert r[..|r| - 1] == NatToString(n / 10);
    }
  }
}
