/** Email address suggestions built from a first name, a last name and an
    optional extra word: the parts are reduced to lower-case letters and
    digits, combined by fixed patterns, given two current-year variants,
    and listed without repetition in order of first appearance. */
module EmailAlias {
  import opened Base

  /** The domains of the select; gmail.com is preselected. */
  const Domains: seq<string> := ["gmail.com", "outlook.com", "yahoo.com", "hotmail.com", "protonmail.com"]

  predicate IsLowerAlnum(c: char) {
    ('a' <= c <= 'z') || ('0' <= c <= '9')
  }

  /** `toLowerCase` on the ASCII letters. */
  function Lower(c: char): (d: char)
    ensures 'A' <= c <= 'Z' ==> 'a' <= d <= 'z' && d as int == c as int + 32
    ensures !('A' <= c <= 'Z') ==> d == c
  {
    if 'A' <= c <= 'Z' then (c as int + 32) as char else c
  }

  /** `s.toLowerCase().replace(/[^a-z0-9]/g, "")`. */
  function Sanitize(s: string): (r: string)
    ensures |r| <= |s|
    ensures forall c :: c in r ==> IsLowerAlnum(c)
    ensures forall i :: 0 <= i < |s| && IsLowerAlnum(Lower(s[i])) ==> Lower(s[i]) in r
    ensures r == [] <==> forall i :: 0 <= i < |s| ==> !IsLowerAlnum(Lower(s[i]))
  {
    if |s| == 0 then []
    else
      var rest := Sanitize(s[1..]);
      assert forall i :: 1 <= i < |s| ==> s[i] == s[1..][i - 1];
      if IsLowerAlnum(Lower(s[0])) then [Lower(s[0])] + rest else rest
  }

  /** Sanitising a sanitised part changes nothing. */
  lemma {:induction false} SanitizeIdempotent(s: string)
    ensures Sanitize(Sanitize(s)) == Sanitize(s)
  {
    if |s| > 0 {
      SanitizeIdempotent(s[1..]);
      var rest := Sanitize(s[1..]);
      if IsLowerAlnum(Lower(s[0])) {
        var r := [Lower(s[0])] + rest;
        assert r[1..] == rest;
        assert Lower(Lower(s[0])) == Lower(s[0]);
      }
    }
  }

  /** The characters of a local part: the sanitised parts and the
      separators '.' and '_'. */
  predicate IsLocalChar(c: char) {
    IsLowerAlnum(c) || c == '.' || c == '_'
  }

  predicate IsLocal(s: string) {
    forall c :: c in s ==> IsLocalChar(c)
  }

  /** The local parts in the order the patterns are pushed. */
  function Locals(first: string, last: string, additional: string, year: nat): (ls: seq<string>)
    requires IsLocal(first) && IsLocal(last) && IsLocal(additional)
    ensures 2 <= |ls| <= 14
    ensures forall i :: 0 <= i < |ls| ==> IsLocal(ls[i])
    ensures ls[|ls| - 2] == first + last + NatToString(year)
    ensures ls[|ls| - 1] == first + NatToString(year)
    ensures first == [] && last == [] ==> ls == [NatToString(year), NatToString(year)]
  {
    var y := NatToString(year);
    assert IsLocal(y) by {
      forall c | c in y ensures IsLocalChar(c) {
        var i :| 0 <= i < |y| && y[i] == c;
      }
    }
    var names :=
      if first != [] && last != [] then
        [first + last, first + "." + last, first + "_" + last, first + [last[0]],
         [first[0]] + last, last + first, last + "." + first, last + "_" + first]
        + (if additional != [] then
             [first + last + additional, first + "." + last + "." + additional,
              first + additional, first + last + additional]
           else [])
      else if first != [] then
        [first] + (if additional != [] then [first + additional, first + "." + additional, first + "_" + additional] else [])
      else if last != [] then
        [last] + (if additional != [] then [last + additional, last + "." + additional, last + "_" + additional] else [])
      else [];
    assert first == [] && last == [] ==> names == [] && first + last + y == y && first + y == y;
    names + [first + last + y, first + y]
  }

  /** `array.indexOf(x)`: the first position of `x`. */
  function IndexOf(xs: seq<string>, x: string): (i: nat)
    requires x in xs
    ensures i < |xs| && xs[i] == x
    ensures forall j :: 0 <= j < i ==> xs[j] != x
  {
    if xs[0] == x then 0 else 1 + IndexOf(xs[1..], x)
  }

  lemma {:induction false} IndexOfPrefix(xs: seq<string>, n: nat, x: string)
    requires n <= |xs| && x in xs[..n]
    ensures IndexOf(xs, x) == IndexOf(xs[..n], x)
  {
    var i := IndexOf(xs[..n], x);
    var k := IndexOf(xs, x);
    assert xs[i] == x;
    assert k <= i;
    assert xs[..n][k] == x;
  }

  predicate Distinct(xs: seq<string>) {
    forall i, j :: 0 <= i < j < |xs| ==> xs[i] != xs[j]
  }

  /** `[...new Set(xs)]`: every value once, at its first position. */
  function Dedup(xs: seq<string>): (r: seq<string>)
    ensures |r| <= |xs|
    ensures forall x :: x in r <==> x in xs
    ensures Distinct(r)
  {
    if |xs| == 0 then []
    else
      var init := xs[..|xs| - 1];
      var x := xs[|xs| - 1];
      var r := Dedup(init);
      assert xs == init + [x];
      if x in r then r else r + [x]
  }

  /** The kept values are in the order of their first appearance. */
  lemma {:induction false} DedupOrder(xs: seq<string>)
    ensures forall i, j :: 0 <= i < j < |Dedup(xs)| ==> IndexOf(xs, Dedup(xs)[i]) < IndexOf(xs, Dedup(xs)[j])
  {
    if |xs| > 0 {
      var init := xs[..|xs| - 1];
      var x := xs[|xs| - 1];
      DedupOrder(init);
      var r := Dedup(init);
      forall y | y in init
        ensures IndexOf(xs, y) == IndexOf(init, y)
      {
        IndexOfPrefix(xs, |xs| - 1, y);
      }
      var d := Dedup(xs);
      assert xs == init + [x];
      forall i, j | 0 <= i < j < |d|
        ensures IndexOf(xs, d[i]) < IndexOf(xs, d[j])
      {
        assert d[i] == r[i] && r[i] in init;
        if j < |r| {
          assert d[j] == r[j] && r[j] in init;
        } else {
          assert d[j] == x && x !in init;
          assert forall k :: 0 <= k < |xs| - 1 ==> xs[k] == init[k];
          assert IndexOf(xs, x) == |xs| - 1;
        }
      }
    }
  }

  /** A list without repetitions is left as it is. */
  lemma {:induction false} DedupOfDistinct(xs: seq<string>)
    requires Distinct(xs)
    ensures Dedup(xs) == xs
  {
    if |xs| > 0 {
      var init := xs[..|xs| - 1];
      DedupOfDistinct(init);
      assert xs[|xs| - 1] !in init;
      assert init + [xs[|xs| - 1]] == xs;
    }
  }

  /** The first value of the list stays first. */
  lemma DedupKeepsFirst(xs: seq<string>)
    requires |xs| > 0
    ensures |Dedup(xs)| > 0 && Dedup(xs)[0] == xs[0]
  {
    var r := Dedup(xs);
    DedupOrder(xs);
    assert xs[0] in r;
    assert IndexOf(xs, xs[0]) == 0;
    forall j | 0 < j < |r|
      ensures r[j] != xs[0]
    {
      assert IndexOf(xs, r[0]) < IndexOf(xs, r[j]);
    }
  }

  /** `${local}@${domain}`. */
  function Address(local: string, domain: string): (a: string)
    ensures EndsWith(a, "@" + domain)
    ensures |a| > |local| && a[..|local|] == local && a[|local|] == '@'
  {
    var a := local + "@" + domain;
    assert a[|local|..] == "@" + domain;
    a
  }

  predicate EndsWith(s: string, suffix: string) {
    |suffix| <= |s| && s[|s| - |suffix|..] == suffix
  }

  /** The address of each local part, in order. */
  function Addresses(ls: seq<string>, domain: string): (addrs: seq<string>)
    ensures |addrs| == |ls|
    ensures forall i :: 0 <= i < |ls| ==> addrs[i] == Address(ls[i], domain)
  {
    if |ls| == 0 then [] else [Address(ls[0], domain)] + Addresses(ls[1..], domain)
  }

  /** What the generated list holds, for any local parts. */
  lemma DedupAddresses(ls: seq<string>, domain: string)
    requires |ls| >= 1
    requires forall i :: 0 <= i < |ls| ==> IsLocal(ls[i])
    ensures var r := Dedup(Addresses(ls, domain));
      && 1 <= |r| <= |ls|
      && (forall a :: a in r ==> EndsWith(a, "@" + domain))
      && (forall a :: a in r ==> exists l :: IsLocal(l) && a == Address(l, domain))
  {
    var emails := Addresses(ls, domain);
    var r := Dedup(emails);
    assert emails[0] in r;
    forall a | a in r
      ensures EndsWith(a, "@" + domain)
      ensures exists l :: IsLocal(l) && a == Address(l, domain)
    {
      var i :| 0 <= i < |emails| && emails[i] == a;
      assert a == Address(ls[i], domain);
    }
  }

  /** `generateEmails`: an error when both name fields are empty as typed;
      otherwise the addresses of the patterns, without repetition, in
      order of first appearance. The year is the clock's current year. */
  function GenerateEmails(firstName: string, lastName: string, additionalText: string, domain: string, year: nat)
    : (r: Result<seq<string>>)
    ensures r.Err? <==> firstName == [] && lastName == []
    ensures r.Err? ==> r.message == "Please enter at least first name or last name"
    ensures r.Ok? ==> 1 <= |r.value| <= 14 && Distinct(r.value)
    ensures r.Ok? ==> forall a :: a in r.value ==> EndsWith(a, "@" + domain)
    ensures r.Ok? ==> forall a :: a in r.value ==> exists l :: IsLocal(l) && a == Address(l, domain)
    ensures r.Ok? ==>
      var ls := Locals(Sanitize(firstName), Sanitize(lastName), Sanitize(additionalText), year);
      && (forall i :: 0 <= i < |ls| ==> Address(ls[i], domain) in r.value)
      && (forall a :: a in r.value ==> a in Addresses(ls, domain))
  {
    if firstName == [] && lastName == [] then Err("Please enter at least first name or last name")
    else
      var ls := Locals(Sanitize(firstName), Sanitize(lastName), Sanitize(additionalText), year);
      Ok(UniqueAddresses(ls, domain))
  }

  /** `[...new Set(emails)]` of the addresses of the local parts: each
      pattern's address once, nothing else, in order of first appearance. */
  function UniqueAddresses(ls: seq<string>, domain: string): (r: seq<string>)
    requires |ls| >= 1
    requires forall i :: 0 <= i < |ls| ==> IsLocal(ls[i])
    ensures 1 <= |r| <= |ls| && Distinct(r)
    ensures forall a :: a in r ==> EndsWith(a, "@" + domain)
    ensures forall a :: a in r ==> exists l :: IsLocal(l) && a == Address(l, domain)
    ensures forall i :: 0 <= i < |ls| ==> Address(ls[i], domain) in r
    ensures forall a :: a in r ==> a in Addresses(ls, domain)
  {
    DedupAddresses(ls, domain);
    DedupCoversPatterns(ls, domain);
    Dedup(Addresses(ls, domain))
  }

  /** Every pattern's address is listed, and nothing else is. */
  lemma DedupCoversPatterns(ls: seq<string>, domain: string)
    ensures forall i :: 0 <= i < |ls| ==> Address(ls[i], domain) in Dedup(Addresses(ls, domain))
  {
    var emails := Addresses(ls, domain);
    forall i | 0 <= i < |ls| ensures Address(ls[i], domain) in Dedup(emails) {
      assert emails[i] in emails;
    }
  }

  /** The unique addresses keep the order of their first appearance. */
  lemma UniqueAddressesOrder(ls: seq<string>, domain: string)
    requires |ls| >= 1
    requires forall i :: 0 <= i < |ls| ==> IsLocal(ls[i])
    ensures InFirstOrder(UniqueAddresses(ls, domain), Addresses(ls, domain))
  {
    DedupOrder(Addresses(ls, domain));
  }

  /** Every value of `r` occurs in `xs`, and `r` lists them in the order of
      their first positions in `xs`. */
  predicate InFirstOrder(r: seq<string>, xs: seq<string>) {
    forall i, j :: 0 <= i < j < |r| ==> r[i] in xs && r[j] in xs && IndexOf(xs, r[i]) < IndexOf(xs, r[j])
  }

  /** The suggestions keep the order in which their patterns first appear. */
  lemma GeneratedInFirstOrder(firstName: string, lastName: string, additionalText: string, domain: string, year: nat)
    requires firstName != [] || lastName != []
    ensures InFirstOrder(GenerateEmails(firstName, lastName, additionalText, domain, year).value,
                         Addresses(Locals(Sanitize(firstName), Sanitize(lastName), Sanitize(additionalText), year), domain))
  {
    var ls := Locals(Sanitize(firstName), Sanitize(lastName), Sanitize(additionalText), year);
    UniqueAddressesOrder(ls, domain);
  }

  /** With both names the first suggestion joins them. */
  lemma FullNameFirst(firstName: string, lastName: string, additionalText: string, domain: string, year: nat)
    requires Sanitize(firstName) != [] && Sanitize(lastName) != []
    ensures GenerateEmails(firstName, lastName, additionalText, domain, year).value[0]
            == Address(Sanitize(firstName) + Sanitize(lastName), domain)
  {
    var ls := Locals(Sanitize(firstName), Sanitize(lastName), Sanitize(additionalText), year);
    DedupKeepsFirst(Addresses(ls, domain));
  }

  lemma DedupTwin(xs: seq<string>)
    requires |xs| == 2 && xs[0] == xs[1]
    ensures Dedup(xs) == [xs[0]]
  {
    assert xs[..1] == [xs[0]];
    assert [xs[0]][..0] == [];
  }

  lemma TwinAddresses(y: string, domain: string)
    ensures Dedup(Addresses([y, y], domain)) == [Address(y, domain)]
  {
    DedupTwin(Addresses([y, y], domain));
  }

  /** Names of symbols only pass the empty-field check but sanitise to
      nothing: the one suggestion left is the bare year. */
  lemma SymbolNamesGiveYearOnly(firstName: string, lastName: string, additionalText: string, domain: string, year: nat)
    requires firstName != [] || lastName != []
    requires Sanitize(firstName) == [] && Sanitize(lastName) == []
    ensures GenerateEmails(firstName, lastName, additionalText, domain, year).value
            == [Address(NatToString(year), domain)]
  {
    var y := NatToString(year);
    var ls := Locals(Sanitize(firstName), Sanitize(lastName), Sanitize(additionalText), year);
    assert ls == [y, y];
    TwinAddresses(y, domain);
  }
}
