/**
 The email normalisation `create_user` applies before it stores a user
 (Django's `BaseUserManager.normalize_email`): strip surrounding whitespace,
 split at the last `@`, lower-case the domain part. An address without `@`
 is stored exactly as given, unstripped.
 */
module Emails {
  import opened Wrappers

  /** Python's `str.isspace()` restricted to ASCII: tab to carriage return, the four separators, space. */
  predicate IsSpace(c: char) {
    var n := c as int;
    n == 32 || 9 <= n <= 13 || 28 <= n <= 31
  }

  function LowerChar(c: char): (r: char)
    ensures IsSpace(r) <==> IsSpace(c)
    ensures r == '@' <==> c == '@'
  {
    if 'A' <= c <= 'Z' then (c as int + 32) as char else c
  }

  /** `str.lower()` on ASCII letters. */
  function Lower(s: string): (r: string)
    ensures |r| == |s|
    ensures forall i :: 0 <= i < |s| ==> r[i] == LowerChar(s[i])
  {
    seq(|s|, i requires 0 <= i < |s| => LowerChar(s[i]))
  }

  /** Every character of `s` is whitespace. */
  ghost predicate AllSpace(s: string) {
    forall i :: 0 <= i < |s| ==> IsSpace(s[i])
  }

  /** `str.lstrip()`: the longest whitespace prefix is cut off. */
  function TrimStart(s: string): (r: string)
    ensures |r| <= |s| && r == s[|s| - |r|..]
    ensures AllSpace(s[..|s| - |r|])
    ensures r == [] || !IsSpace(r[0])
    ensures s == [] || !IsSpace(s[0]) ==> r == s
  {
    if s != [] && IsSpace(s[0]) then
      var r := TrimStart(s[1..]);
      assert forall i :: 1 <= i < |s| - |r| ==> s[i] == s[1..][..|s| - 1 - |r|][i - 1];
      r
    else s
  }

  /** `str.rstrip()`: the longest whitespace suffix is cut off. */
  function TrimEnd(s: string): (r: string)
    ensures |r| <= |s| && r == s[..|r|]
    ensures AllSpace(s[|r|..])
    ensures r == [] || !IsSpace(r[|r| - 1])
    ensures s == [] || !IsSpace(s[|s| - 1]) ==> r == s
  {
    if s != [] && IsSpace(s[|s| - 1]) then
      var r := TrimEnd(s[..|s| - 1]);
      assert forall i :: |r| <= i < |s| - 1 ==> s[i] == s[..|s| - 1][|r|..][i - |r|];
      r
    else s
  }

  /** `str.strip()`: no whitespace left at either end. */
  function Strip(s: string): (r: string)
    ensures r == [] || (!IsSpace(r[0]) && !IsSpace(r[|r| - 1]))
    ensures s == [] || (!IsSpace(s[0]) && !IsSpace(s[|s| - 1])) ==> r == s
  {
    var t := TrimStart(s);
    var r := TrimEnd(t);
    assert r != [] ==> r[0] == t[0];
    r
  }

  /**
   What `str.strip()` cuts off is whitespace only: the result is the slice of
   `s` that starts at the returned offset `k`, and everything before and
   after that slice is whitespace.
   */
  lemma {:induction false} StripCutsOnlySpace(s: string) returns (k: nat)
    ensures k + |Strip(s)| <= |s|
    ensures AllSpace(s[..k]) && Strip(s) == s[k..k + |Strip(s)|] && AllSpace(s[k + |Strip(s)|..])
  {
    var t := TrimStart(s);
    InnerSlice(s, t, TrimEnd(t));
    k := |s| - |t|;
  }

  /**
   A prefix `r` of a suffix `t` of `s` is a slice of `s`, and what follows
   `r` in `t` is what follows it in `s`.
   */
  lemma InnerSlice(s: string, t: string, r: string)
    requires |t| <= |s| && t == s[|s| - |t|..]
    requires |r| <= |t| && r == t[..|r|]
    requires AllSpace(t[|r|..])
    ensures r == s[|s| - |t|..|s| - |t| + |r|]
    ensures AllSpace(s[|s| - |t| + |r|..])
  {
    assert t[|r|..] == s[|s| - |t| + |r|..];
  }

  /** The position `rsplit(c, 1)` splits at: the last occurrence of `c`. */
  function LastIndexOf(s: string, c: char): (r: Option<nat>)
    ensures r.Some? ==> r.value < |s| && s[r.value] == c
    ensures r.Some? ==> forall j :: r.value < j < |s| ==> s[j] != c
    ensures r.None? ==> forall j :: 0 <= j < |s| ==> s[j] != c
  {
    if s == [] then None
    else if s[|s| - 1] == c then Some(|s| - 1)
    else LastIndexOf(s[..|s| - 1], c)
  }

  /** `normalize_email`: the address `create_user` stores for the submitted `email`. */
  function NormalizeEmail(email: string): (r: string) {
    var t := Strip(email);
    match LastIndexOf(t, '@')
    case None => email
    case Some(k) => t[..k] + "@" + Lower(t[k + 1..])
  }

  lemma LowerIsIdempotent(s: string)
    ensures Lower(Lower(s)) == Lower(s)
  {
    assert forall i :: 0 <= i < |s| ==> LowerChar(LowerChar(s[i])) == LowerChar(s[i]);
  }

  /** An address already split as `name@domain`, with nothing to strip and no `@` in the domain, splits the same way again. */
  lemma {:induction false} SplitAddressIsStable(name: string, domain: string)
    requires name == [] || !IsSpace(name[0])
    requires domain == [] || !IsSpace(domain[|domain| - 1])
    requires forall j :: 0 <= j < |domain| ==> domain[j] != '@'
    ensures Strip(name + "@" + domain) == name + "@" + domain
    ensures LastIndexOf(name + "@" + domain, '@') == Some(|name|)
  {
    var n := name + "@" + domain;
    assert !IsSpace('@');
    assert n[0] == (if name == [] then '@' else name[0]);
    assert n[|n| - 1] == (if domain == [] then '@' else domain[|domain| - 1]);
    assert !IsSpace(n[0]) && !IsSpace(n[|n| - 1]);
    assert n[|name|] == '@';
    forall j | |name| < j < |n|
      ensures n[j] != '@'
    {
      assert n[j] == domain[j - |name| - 1];
    }
    var r := LastIndexOf(n, '@');
    assert r.Some?;
    assert r.value >= |name|;
    assert r.value <= |name|;
  }

  /** Normalising an address already in split form only lowers its domain again. */
  lemma {:induction false} NormalizeSplitAddress(name: string, domain: string)
    requires name == [] || !IsSpace(name[0])
    requires domain == [] || !IsSpace(domain[|domain| - 1])
    requires forall j :: 0 <= j < |domain| ==> domain[j] != '@'
    ensures NormalizeEmail(name + "@" + domain) == name + "@" + Lower(domain)
  {
    var n := name + "@" + domain;
    SplitAddressIsStable(name, domain);
    assert n[..|name|] == name;
    assert n[|name| + 1..] == domain;
  }

  /** What `normalize_email` makes of an address that has an `@` after stripping. */
  lemma {:induction false} NormalizedParts(email: string, k: nat)
    requires LastIndexOf(Strip(email), '@') == Some(k)
    ensures var t := Strip(email);
            var name := t[..k];
            var domain := Lower(t[k + 1..]);
            && NormalizeEmail(email) == name + "@" + domain
            && (name == [] || !IsSpace(name[0]))
            && (domain == [] || !IsSpace(domain[|domain| - 1]))
            && (forall j :: 0 <= j < |domain| ==> domain[j] != '@')
  {
    var t := Strip(email);
    var domain := Lower(t[k + 1..]);
    assert k > 0 ==> t[..k][0] == t[0];
    assert domain != [] ==> domain[|domain| - 1] == LowerChar(t[|t| - 1]);
    forall j | 0 <= j < |domain|
      ensures domain[j] != '@'
    {
      assert domain[j] == LowerChar(t[k + 1 + j]);
    }
  }

  /** Normalising an address twice gives what normalising it once gave: stored addresses are fixed points. */
  lemma {:induction false} NormalizeIsIdempotent(email: string)
    ensures NormalizeEmail(NormalizeEmail(email)) == NormalizeEmail(email)
  {
    var t := Strip(email);
    match LastIndexOf(t, '@')
    case None =>
    case Some(k) =>
      NormalizedParts(email, k);
      NormalizeSplitAddress(t[..k], Lower(t[k + 1..]));
      LowerIsIdempotent(t[k + 1..]);
  }

  /** Applying `f` twice gives what applying it once gave. */
  ghost predicate Idempotent(f: string -> string) {
    forall e :: f(f(e)) == f(e)
  }

  lemma NormalizeEmailIsIdempotent()
    ensures Idempotent(NormalizeEmail)
  {
    forall e {
      NormalizeIsIdempotent(e);
    }
  }

  /** "b@x.com" is stored as given. */
  lemma NormalFormExample()
    ensures NormalizeEmail("b@x.com") == "b@x.com"
  {
    assert Lower("x.com") == "x.com";
    assert "b" + "@" + "x.com" == "b@x.com";
    NormalizeSplitAddress("b", "x.com");
  }

  lemma StripDropsLeadingSpace(c: char, email: string)
    requires IsSpace(c)
    ensures Strip([c] + email) == Strip(email)
  {
    assert ([c] + email)[1..] == email;
  }

  /** Leading whitespace does not change the stored form of an address that has an `@`. */
  lemma {:induction false} LeadingSpaceIgnored(c: char, email: string)
    requires IsSpace(c) && LastIndexOf(Strip(email), '@').Some?
    ensures NormalizeEmail([c] + email) == NormalizeEmail(email)
  {
    StripDropsLeadingSpace(c, email);
  }

  /** " b@x.com" is stored as "b@x.com", which is stored as given: the leading space is stripped. */
  lemma PaddedExample()
    ensures NormalizeEmail(" b@x.com") == "b@x.com"
    ensures NormalizeEmail("b@x.com") == "b@x.com"
  {
    var e := "b@x.com";
    assert [' '] + e == " b@x.com";
    assert "b" + "@" + "x.com" == e;
    SplitAddressIsStable("b", "x.com");
    LeadingSpaceIgnored(' ', e);
    NormalFormExample();
  }

  /** "b@X.com" is stored as "b@x.com": the domain is lower-cased. */
  lemma MixedCaseExample()
    ensures NormalizeEmail("b@X.com") == "b@x.com"
  {
    assert Lower("X.com") == "x.com";
    assert "b" + "@" + "X.com" == "b@X.com";
    assert "b" + "@" + "x.com" == "b@x.com";
    NormalizeSplitAddress("b", "X.com");
  }
}
