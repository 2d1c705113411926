/**
 * Email normalisation as the user manager applies it before a user is stored:
 * the text after the LAST '@' (the domain) is lower-cased, the local part is
 * kept exactly as given, and an address without '@' is left untouched.
 */
module EmailAddresses {
  import opened Results

  predicate IsUpper(c: char) {
    'A' <= c <= 'Z'
  }

  /** ASCII lower-casing of one character. */
  function LowerChar(c: char): char {
    if IsUpper(c) then (c as int + 32) as char else c
  }

  /** `str.lower()` restricted to ASCII letters. */
  function Lower(s: string): (r: string)
    ensures |r| == |s|
    ensures forall i :: 0 <= i < |s| ==> !IsUpper(r[i])
    ensures forall i :: 0 <= i < |s| ==> (r[i] == '@' <==> s[i] == '@')
    ensures forall i :: 0 <= i < |s| ==> !IsUpper(s[i]) ==> r[i] == s[i]
    ensures forall i :: 0 <= i < |s| && IsUpper(s[i]) ==> r[i] as int == s[i] as int + ('a' as int - 'A' as int)
  {
    seq(|s|, i requires 0 <= i < |s| => LowerChar(s[i]))
  }

  /** The index `rsplit('@', 1)` splits at: the last '@', if there is one. */
  function LastAt(s: string): (r: Option<nat>)
    ensures r.None? <==> '@' !in s
    ensures r.Some? ==> r.value < |s| && s[r.value] == '@' && '@' !in s[r.value + 1..]
  {
    if |s| == 0 then None
    else if s[|s| - 1] == '@' then Some(|s| - 1)
    else
      var r := LastAt(s[..|s| - 1]);
      assert s == s[..|s| - 1] + [s[|s| - 1]];
      if r.Some? then
        assert s[r.value + 1..] == s[..|s| - 1][r.value + 1..] + [s[|s| - 1]];
        r
      else r
  }

  /** The address as the user manager stores it. */
  function NormalizeEmail(email: string): (r: string)
    ensures |r| == |email|
    ensures '@' !in email ==> r == email
  {
    match LastAt(email)
    case None => email
    case Some(k) => email[..k] + "@" + Lower(email[k + 1..])
  }

  /** An address is stored only in normalised form. */
  predicate IsNormalized(email: string) {
    NormalizeEmail(email) == email
  }

  /** The last '@' is determined by any position holding '@' with none after it. */
  lemma LastAtAt(s: string, k: nat)
    requires k < |s| && s[k] == '@' && '@' !in s[k + 1..]
    ensures LastAt(s) == Some(k)
  {
    assert s[k] in s;
    var j := LastAt(s).value;
    assert forall i :: j < i < |s| ==> s[i] == s[j + 1..][i - j - 1] != '@';
    assert forall i :: k < i < |s| ==> s[i] == s[k + 1..][i - k - 1] != '@';
  }

  /** Normalisation keeps everything up to and including the last '@'. */
  lemma NormalizeKeepsLocalPart(email: string, k: nat)
    requires LastAt(email) == Some(k)
    ensures NormalizeEmail(email)[..k + 1] == email[..k + 1]
  {
    assert email[..k + 1] == email[..k] + "@";
  }

  /**
   * Normalisation lower-cases the domain: each upper-case letter after the
   * last '@' becomes its lower-case partner, and nothing else there changes.
   */
  lemma NormalizeLowersDomain(email: string, k: nat)
    requires LastAt(email) == Some(k)
    ensures NormalizeEmail(email)[k + 1..] == Lower(email[k + 1..])
    ensures forall i :: k < i < |email| ==> !IsUpper(NormalizeEmail(email)[i])
    ensures forall i :: k < i < |email| && IsUpper(email[i]) ==>
              NormalizeEmail(email)[i] as int == email[i] as int + ('a' as int - 'A' as int)
    ensures forall i :: k < i < |email| && !IsUpper(email[i]) ==> NormalizeEmail(email)[i] == email[i]
  {
    var r := NormalizeEmail(email);
    assert r == email[..k] + "@" + Lower(email[k + 1..]);
    LowerAfter(email, r, k);
  }

  /** A string that lower-cases `email` after position `k`, index by index. */
  lemma LowerAfter(email: string, r: string, k: nat)
    requires k < |email| && r == email[..k] + "@" + Lower(email[k + 1..])
    ensures r[k + 1..] == Lower(email[k + 1..])
    ensures forall i :: k < i < |email| ==> !IsUpper(r[i])
    ensures forall i :: k < i < |email| && IsUpper(email[i]) ==>
              r[i] as int == email[i] as int + ('a' as int - 'A' as int)
    ensures forall i :: k < i < |email| && !IsUpper(email[i]) ==> r[i] == email[i]
  {
    var tail := email[k + 1..];
    assert r[k + 1..] == Lower(tail);
    forall i | k < i < |email|
      ensures !IsUpper(r[i])
      ensures IsUpper(email[i]) ==> r[i] as int == email[i] as int + ('a' as int - 'A' as int)
      ensures !IsUpper(email[i]) ==> r[i] == email[i]
    {
      assert r[i] == r[k + 1..][i - k - 1];
      assert email[i] == tail[i - k - 1];
    }
  }

  /** Two strings that agree up to ASCII case. */
  predicate SameUpToCase(s: string, t: string) {
    |s| == |t| && forall i :: 0 <= i < |s| ==> LowerChar(s[i]) == LowerChar(t[i])
  }

  /**
   * Addresses that differ only in the case of their domain are stored as the
   * same address, so the unique email column refuses the second one.
   */
  lemma NormalizeIgnoresDomainCase(e1: string, e2: string, k: nat)
    requires LastAt(e1) == Some(k)
    requires |e1| == |e2| && e1[..k + 1] == e2[..k + 1]
    requires SameUpToCase(e1[k + 1..], e2[k + 1..])
    ensures NormalizeEmail(e1) == NormalizeEmail(e2)
  {
    var local, d1, d2 := e1[..k], e1[k + 1..], e2[k + 1..];
    SplitSharedPrefix(e1, e2, k);
    NoAtUpToCase(d1, d2);
    NormalizeSplit(local, d1);
    NormalizeSplit(local, d2);
    LowerSameUpToCase(d1, d2);
  }

  /** Two strings that agree up to an '@' at position `k` split there alike. */
  lemma SplitSharedPrefix(e1: string, e2: string, k: nat)
    requires k < |e1| == |e2| && e1[k] == '@' && e1[..k + 1] == e2[..k + 1]
    ensures e1 == e1[..k] + "@" + e1[k + 1..]
    ensures e2 == e1[..k] + "@" + e2[k + 1..]
  {
    assert e2[k] == e2[..k + 1][k];
    assert e1[..k] == e1[..k + 1][..k];
    assert e2[..k] == e2[..k + 1][..k];
    assert e1 == e1[..k] + [e1[k]] + e1[k + 1..];
    assert e2 == e2[..k] + [e2[k]] + e2[k + 1..];
  }

  /** Case never turns another character into '@'. */
  lemma NoAtUpToCase(s: string, t: string)
    requires SameUpToCase(s, t) && '@' !in s
    ensures '@' !in t
  {
    forall i | 0 <= i < |t|
      ensures t[i] != '@'
    {
      assert LowerChar(s[i]) == LowerChar(t[i]);
      assert s[i] != '@';
    }
  }

  /** An address split at an '@' whose domain holds no further '@' is stored with that domain lower-cased. */
  lemma NormalizeSplit(local: string, domain: string)
    requires '@' !in domain
    ensures NormalizeEmail(local + "@" + domain) == local + "@" + Lower(domain)
  {
    var e := local + "@" + domain;
    var k := |local|;
    assert e[k] == '@' && e[..k] == local && e[k + 1..] == domain;
    LastAtAt(e, k);
  }

  /** Strings equal up to case lower-case to the same string. */
  lemma LowerSameUpToCase(s: string, t: string)
    requires SameUpToCase(s, t)
    ensures Lower(s) == Lower(t)
  {
    forall i | 0 <= i < |s|
      ensures Lower(s)[i] == Lower(t)[i]
    {
      assert Lower(s)[i] == LowerChar(s[i]);
      assert Lower(t)[i] == LowerChar(t[i]);
    }
  }

  /** An address with no upper-case letter is stored exactly as given. */
  lemma NormalizeKeepsLowercase(email: string)
    requires forall i :: 0 <= i < |email| ==> !IsUpper(email[i])
    ensures NormalizeEmail(email) == email
  {
    match LastAt(email)
    case None =>
    case Some(k) =>
      assert Lower(email[k + 1..]) == email[k + 1..];
      assert email == email[..k] + "@" + email[k + 1..];
  }

  /** Normalising twice is normalising once: every stored address is a fixed point. */
  lemma NormalizeIdempotent(email: string)
    ensures IsNormalized(NormalizeEmail(email))
  {
    match LastAt(email)
    case None =>
    case Some(k) =>
      var d := Lower(email[k + 1..]);
      var r := email[..k] + "@" + d;
      assert r[k + 1..] == d;
      assert r[..k] == email[..k];
      LastAtAt(r, k);
      assert Lower(d) == d;
  }

  /** The domain of the address used by the model tests, lower-cased. */
  lemma LowerExampleDomain()
    ensures Lower("GMAIL.COM") == "gmail.com"
  {
    var u := "GMAIL.COM";
    var d := Lower(u);
    var want := "gmail.com";
    forall i | 0 <= i < 9
      ensures d[i] == want[i]
    {
      assert d[i] == LowerChar(u[i]);
    }
  }

  /** The address of the plain-user test is already normalised and is stored as given. */
  lemma LowercaseExampleUnchanged()
    ensures NormalizeEmail("test@gmail.com") == "test@gmail.com"
  {
    var d := "gmail.com";
    assert "test@gmail.com" == "test" + "@" + d;
    forall i | 0 <= i < |d|
      ensures Lower(d)[i] == d[i] && d[i] != '@'
    {
      assert !IsUpper(d[i]);
    }
    assert Lower(d) == d;
    NormalizeSplit("test", d);
  }

  /** The address used by the model tests: only the domain changes case. */
  lemma NormalizeExample()
    ensures NormalizeEmail("test@GMAIL.COM") == "test@gmail.com"
  {
    var d := "GMAIL.COM";
    assert '@' !in d by {
      forall i | 0 <= i < |d|
        ensures d[i] != '@'
      {
      }
    }
    LowerExampleDomain();
    NormalizeSplitAs("test@GMAIL.COM", "test", d, "test@gmail.com");
  }

  /** `NormalizeSplit`, with the address and its stored form named. */
  lemma NormalizeSplitAs(email: string, local: string, domain: string, stored: string)
    requires '@' !in domain && email == local + "@" + domain && stored == local + "@" + Lower(domain)
    ensures NormalizeEmail(email) == stored
  {
    NormalizeSplit(local, domain);
  }
}
