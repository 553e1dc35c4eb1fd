/** Newsletter sign-up on the storefront: the e-mail check and the subscriber list. */
module Newsletter {
  import opened Wrappers
  import opened Text
  import opened LocalStore

  /** A character `[^\s@]` accepts. */
  predicate NameChar(c: char) {
    !IsWhitespace(c) && c != '@'
  }

  predicate AllNameChars(s: string) {
    forall i :: 0 <= i < |s| ==> NameChar(s[i])
  }

  /** The index of the first `c` in `s`. */
  function IndexOf(s: string, c: char): (i: Option<nat>)
    ensures i.Some? ==> i.value < |s| && s[i.value] == c && c !in s[..i.value]
    ensures i.None? <==> c !in s
  {
    if s == [] then None
    else if s[0] == c then Some(0)
    else match IndexOf(s[1..], c)
      case None => None
      case Some(k) =>
        assert s[..k + 1] == [s[0]] + s[1..][..k];
        Some(k + 1)
  }

  /**
   * `isValidEmail`, computed: the text before the first '@' is non-empty, and neither it nor the
   * text after it holds white space or another '@'; the text after it has a '.' with at least one
   * character on each side.
   */
  function IsValidEmail(email: string): (ok: bool)
    ensures ok ==> |email| >= 5 && NameChar(email[0]) && NameChar(email[|email| - 1])
  {
    match IndexOf(email, '@')
    case None => false
    case Some(at) =>
      var user := email[..at];
      var domain := email[at + 1..];
      && user != [] && AllNameChars(user) && AllNameChars(domain)
      && |domain| >= 3 && '.' in domain[1..|domain| - 1]
  }

  /**
   * `/^[^\s@]+@[^\s@]+\.[^\s@]+$/` read as it is written: three non-empty runs of `[^\s@]`, the
   * first two separated by '@' and the last two by '.'.
   */
  ghost predicate MatchesEmailPattern(email: string) {
    exists at, dot ::
      && 0 < at && at + 1 < dot < |email| - 1
      && email[at] == '@' && email[dot] == '.'
      && AllNameChars(email[..at]) && AllNameChars(email[at + 1..dot]) && AllNameChars(email[dot + 1..])
  }

  /** Every string the computed check accepts matches the regular expression. */
  lemma ValidEmailMatchesPattern(email: string)
    requires IsValidEmail(email)
    ensures MatchesEmailPattern(email)
  {
    var at := IndexOf(email, '@').value;
    var domain := email[at + 1..];
    var k :| 1 <= k < |domain| - 1 && domain[1..|domain| - 1][k - 1] == '.';
    var dot := at + 1 + k;
    assert email[dot] == '.';
    assert AllNameChars(email[at + 1..dot]) by {
      assert email[at + 1..dot] == domain[..k];
    }
    assert AllNameChars(email[dot + 1..]) by {
      assert email[dot + 1..] == domain[k + 1..];
    }
  }

  /** In a string that matches, the '@' of the match is the first '@'. */
  lemma PatternAtIsFirst(email: string, at: nat)
    requires at < |email| && email[at] == '@' && AllNameChars(email[..at])
    ensures IndexOf(email, '@') == Some(at)
  {
  }

  /** Two runs of `[^\s@]` joined by a '.' form a run of `[^\s@]`. */
  lemma AllNameCharsAroundDot(left: string, right: string)
    requires AllNameChars(left) && AllNameChars(right)
    ensures AllNameChars(left + ['.'] + right)
  {
    var joined := left + ['.'] + right;
    forall i | 0 <= i < |joined| ensures NameChar(joined[i]) {
      if i < |left| {
        assert joined[i] == left[i];
      } else if i > |left| {
        assert joined[i] == right[i - |left| - 1];
      }
    }
  }

  /** An '@' and a '.' that witness the regular expression make the computed check pass. */
  lemma WitnessIsValidEmail(email: string, at: nat, dot: nat)
    requires 0 < at && at + 1 < dot < |email| - 1
    requires email[at] == '@' && email[dot] == '.'
    requires AllNameChars(email[..at]) && AllNameChars(email[at + 1..dot]) && AllNameChars(email[dot + 1..])
    ensures IsValidEmail(email)
  {
    PatternAtIsFirst(email, at);
    var domain := email[at + 1..];
    var left := email[at + 1..dot];
    var right := email[dot + 1..];
    assert domain == left + ['.'] + right;
    AllNameCharsAroundDot(left, right);
    assert domain[1..|domain| - 1][|left| - 1] == '.';
  }

  /** Every string the regular expression matches passes the computed check. */
  lemma PatternIsValidEmail(email: string)
    requires MatchesEmailPattern(email)
    ensures IsValidEmail(email)
  {
    var at: nat, dot: nat :|
      && 0 < at && at + 1 < dot < |email| - 1
      && email[at] == '@' && email[dot] == '.'
      && AllNameChars(email[..at]) && AllNameChars(email[at + 1..dot]) && AllNameChars(email[dot + 1..]);
    WitnessIsValidEmail(email, at, dot);
  }

  /** The computed check accepts exactly the strings the regular expression matches. */
  lemma IsValidEmailMatchesPattern(email: string)
    ensures IsValidEmail(email) <==> MatchesEmailPattern(email)
  {
    if IsValidEmail(email) {
      ValidEmailMatchesPattern(email);
    }
    if MatchesEmailPattern(email) {
      PatternIsValidEmail(email);
    }
  }

  /** A plain address passes. */
  lemma PlainAddressIsValid()
    ensures IsValidEmail("a@b.c")
  {
    WitnessIsValidEmail("a@b.c", 1, 3);
  }

  /** An address with no '.' after its '@' fails. */
  lemma AddressWithoutDotIsInvalid()
    ensures !IsValidEmail("a@bc")
  {
    assert IndexOf("a@bc", '@') == Some(1);
    assert "a@bc"[2..] == "bc";
  }

  /** An address holding a space fails. */
  lemma AddressWithSpaceIsInvalid()
    ensures !IsValidEmail("a b@c.d")
  {
    assert IndexOf("a b@c.d", '@') == Some(3);
    assert !NameChar("a b@c.d"[..3][1]);
  }

  /** An address with a second '@' fails. */
  lemma AddressWithTwoAtsIsInvalid()
    ensures !IsValidEmail("a@b@c.d")
  {
    assert IndexOf("a@b@c.d", '@') == Some(1);
    assert !NameChar("a@b@c.d"[2..][1]);
  }

  /** The subscriber list after a sign-up: the e-mail appended unless it is already there. */
  function Subscribe(subscribers: seq<string>, email: string): (r: seq<string>)
    ensures email in r && subscribers <= r
    ensures |r| == if email in subscribers then |subscribers| else |subscribers| + 1
  {
    if email in subscribers then subscribers else subscribers + [email]
  }

  /** No address occurs twice. */
  predicate NoDuplicates(emails: seq<string>) {
    forall i, j :: 0 <= i < j < |emails| ==> emails[i] != emails[j]
  }

  /**
   * Signing up is idempotent and keeps a list free of duplicates.
   */
  lemma SubscribeProperties(subscribers: seq<string>, email: string)
    ensures Subscribe(Subscribe(subscribers, email), email) == Subscribe(subscribers, email)
    ensures NoDuplicates(subscribers) ==> NoDuplicates(Subscribe(subscribers, email))
  {
  }

  /**
   * `handleNewsletterSignup`: the stored list gains the address only when it was not there; an
   * address already present causes no write. An unreadable list or a refused write is caught
   * and logged, and the key keeps its value.
   */
  method HandleNewsletterSignup(store: Store, email: string, writeAccepted: bool) returns (stored: bool)
    modifies store`subscribers
    ensures stored <==> !old(store.subscribers).Corrupt? && email !in ReadOrEmpty(old(store.subscribers)) && writeAccepted
    ensures stored ==> store.subscribers == Stored(Subscribe(ReadOrEmpty(old(store.subscribers)), email))
    ensures !stored ==> store.subscribers == old(store.subscribers)
    ensures !old(store.subscribers).Corrupt? && writeAccepted ==>
              store.subscribers == Stored(Subscribe(ReadOrEmpty(old(store.subscribers)), email))
  {
    var parsed := ParseOrEmpty(store.subscribers);
    if parsed.None? {
      return false;
    }
    var subscribers := parsed.value;
    stored := false;
    if email !in subscribers {
      subscribers := subscribers + [email];
      var written := store.SaveSubscribers(subscribers, writeAccepted);
      stored := written == Ok;
    } else {
      assert store.subscribers.Stored?;
    }
  }

  /**
   * The sign-up form handler: the typed address is trimmed, and a non-empty valid address is
   * signed up; anything else is refused with an error message and nothing is stored.
   */
  method SubmitNewsletter(store: Store, typed: string, writeAccepted: bool) returns (accepted: bool)
    modifies store`subscribers
    ensures accepted <==> IsValidEmail(Trim(typed))
    ensures !accepted ==> store.subscribers == old(store.subscribers)
    ensures accepted && !old(store.subscribers).Corrupt? && writeAccepted ==>
              store.subscribers == Stored(Subscribe(ReadOrEmpty(old(store.subscribers)), Trim(typed)))
    ensures !(accepted && !old(store.subscribers).Corrupt? && writeAccepted) ==>
              store.subscribers == old(store.subscribers)
  {
    var email := Trim(typed);
    accepted := email != "" && IsValidEmail(email);
    if accepted {
      var _ := HandleNewsletterSignup(store, email, writeAccepted);
    }
  }
}
