/** Which upstream errors disable a provider and send the request on to the next one. */
module Fallback {

  datatype UpstreamError = Status(status: nat, body: string) | Timeout | Connect | Other

  datatype FallbackOutcome = ShouldDisableAndFallback | NoFallback

  /**
   Lower-casing the ASCII letters. For the words looked up here this finds what full Unicode
   lower-casing finds: no other character becomes one of their letters on its own.
   */
  function Lower(s: string): (r: string)
    ensures |r| == |s|
  {
    if s == "" then ""
    else (if 'A' <= s[0] <= 'Z' then ['a' + (s[0] - 'A')] else [s[0]]) + Lower(s[1..])
  }

  predicate Contains(s: string, word: string) {
    word <= s || (s != "" && Contains(s[1..], word))
  }

  predicate MentionsQuota(body: string) {
    var lower := Lower(body);
    Contains(lower, "quota") || Contains(lower, "billing") || Contains(lower, "limit")
  }

  function Classify(e: UpstreamError): FallbackOutcome {
    match e
    case Status(402, _) => ShouldDisableAndFallback
    case Status(429, body) =>
      // Both branches on the body's words lead here; only the recorded reason differs.
      ShouldDisableAndFallback
    case Status(403, body) => if MentionsQuota(body) then ShouldDisableAndFallback else NoFallback
    case Status(status, _) => if status >= 500 then ShouldDisableAndFallback else NoFallback
    case Timeout => ShouldDisableAndFallback
    case Connect => ShouldDisableAndFallback
    case Other => NoFallback
  }

  lemma {:induction false} LowerIsIdempotent(s: string)
    ensures Lower(Lower(s)) == Lower(s)
  {
    if s != "" {
      LowerIsIdempotent(s[1..]);
      assert Lower(s)[1..] == Lower(s[1..]);
    }
  }

  lemma {:induction false} ContainsIff(s: string, word: string)
    ensures Contains(s, word) <==> exists i :: 0 <= i <= |s| && word <= s[i..]
  {
    if word <= s {
      assert s[0..] == s;
    } else if s != "" {
      ContainsIff(s[1..], word);
      forall i | 0 <= i <= |s| && word <= s[i..]
        ensures Contains(s, word)
      {
        assert s[0..] == s;
        assert s[i..] == s[1..][i - 1..];
      }
      if Contains(s, word) {
        var i :| 0 <= i <= |s[1..]| && word <= s[1..][i..];
        assert s[1..][i..] == s[i + 1..];
      }
    } else {
      assert forall i :: 0 <= i <= |s| ==> s[i..] == s;
    }
  }

  lemma {:induction false} LowerAt(s: string, i: nat)
    requires i < |s|
    ensures Lower(s)[i] == if 'A' <= s[i] <= 'Z' then 'a' + (s[i] - 'A') else s[i]
  {
    if i > 0 {
      LowerAt(s[1..], i - 1);
    }
  }

  /** `c` is the letter `letter`, in either case. */
  predicate IsLetter(c: char, letter: char) {
    c == letter || ('A' <= c <= 'Z' && letter == 'a' + (c - 'A'))
  }

  lemma LetterIff(s: string, i: nat, letter: char)
    requires i < |s| && 'a' <= letter <= 'z'
    ensures Lower(s)[i] == letter <==> IsLetter(s[i], letter)
  {
    LowerAt(s, i);
  }

  /** `word` stands at place `i` of the body, in letters of either case. */
  ghost predicate StandsAt(body: string, i: nat, word: string) {
    i + |word| <= |body| && forall k :: i <= k < i + |word| ==> IsLetter(body[k], word[k - i])
  }

  ghost predicate Speaks(body: string, word: string) {
    exists i :: StandsAt(body, i, word)
  }

  predicate LowerCase(word: string) {
    forall j :: 0 <= j < |word| ==> 'a' <= word[j] <= 'z'
  }

  lemma PrefixIff(word: string, s: string, i: nat)
    requires i <= |s|
    ensures word <= s[i..] <==> i + |word| <= |s| && forall k :: i <= k < i + |word| ==> s[k] == word[k - i]
  {
    if i + |word| <= |s| {
      assert word <= s[i..] <==> s[i..i + |word|] == word;
    }
  }

  lemma StandsIff(body: string, lower: string, i: nat, word: string)
    requires |lower| == |body| && LowerCase(word) && i <= |body|
    requires forall k, c :: 0 <= k < |body| && 'a' <= c <= 'z' ==> (lower[k] == c <==> IsLetter(body[k], c))
    ensures word <= lower[i..] <==> StandsAt(body, i, word)
  {
    PrefixIff(word, lower, i);
    forall k | i <= k < i + |word| && k < |body|
      ensures lower[k] == word[k - i] <==> IsLetter(body[k], word[k - i])
    {
      assert 'a' <= word[k - i] <= 'z';
    }
  }

  /** The keyword test finds a word exactly if it stands somewhere in the body, in letters of either case. */
  lemma SpeaksIff(body: string, word: string)
    requires LowerCase(word)
    ensures Contains(Lower(body), word) <==> Speaks(body, word)
  {
    var lower := Lower(body);
    ContainsIff(lower, word);
    forall k, c | 0 <= k < |body| && 'a' <= c <= 'z'
      ensures lower[k] == c <==> IsLetter(body[k], c)
    {
      LetterIff(body, k, c);
    }
    forall i: nat | i <= |body|
      ensures word <= lower[i..] <==> StandsAt(body, i, word)
    {
      StandsIff(body, lower, i, word);
    }
  }

  /**
   Errors that disable the provider and send the request on: payment required, too many requests, any
   server error, a refusal that speaks of a quota, of billing or of a limit, and a provider that does
   not answer at all.
   */
  ghost predicate ProviderFails(e: UpstreamError) {
    match e
    case Status(status, body) =>
      || status == 402 || status == 429 || status >= 500
      || (status == 403 && (Speaks(body, "quota") || Speaks(body, "billing") || Speaks(body, "limit")))
    case Timeout => true
    case Connect => true
    case Other => false
  }

  lemma ClassifyIff(e: UpstreamError)
    ensures Classify(e) == ShouldDisableAndFallback <==> ProviderFails(e)
  {
    if e.Status? {
      SpeaksIff(e.body, "quota");
      SpeaksIff(e.body, "billing");
      SpeaksIff(e.body, "limit");
    }
  }

  /**
   The body decides only for 403, and its letter case never does. In particular every 429 disables
   its provider and falls back, whatever the body says.
   */
  lemma BodyDecidesOnlyForbidden(status: nat, body: string, body': string)
    ensures Classify(Status(status, body)) == Classify(Status(status, Lower(body)))
    ensures Classify(Status(status, body)) != Classify(Status(status, body'))
            ==> status == 403 && MentionsQuota(body) != MentionsQuota(body')
    ensures Classify(Status(429, body)) == ShouldDisableAndFallback
  {
    LowerIsIdempotent(body);
  }
}
