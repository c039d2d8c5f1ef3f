/** The login form: an e-mail address and a password, a validity flag the
    form recomputes whenever either changes, and a submit that passes the
    credentials on only when they are valid. */
module LoginForm {
  import opened Text
  import opened Values

  /** A character of the class `[^\s@]`. */
  predicate WordChar(c: char)
  {
    !IsSpace(c) && c != '@'
  }

  /** `s[lo..hi]` matches `[^\s@]+`. */
  predicate Word(s: string, lo: int, hi: int)
  {
    0 <= lo < hi <= |s| && forall k :: lo <= k < hi ==> WordChar(s[k])
  }

  /** `s` matches `^[^\s@]+@[^\s@]+\.[^\s@]+$`: it splits as a word, `@`, a
      word, `.`, a word. */
  ghost predicate MatchesEmailPattern(s: string)
  {
    exists i, j :: 0 <= i < j < |s| && Word(s, 0, i) && s[i] == '@' && Word(s, i + 1, j) && s[j] == '.' && Word(s, j + 1, |s|)
  }

  /** How often `c` occurs in `s`. */
  function Occurrences(s: string, c: char): nat
  {
    if s == [] then 0 else (if s[0] == c then 1 else 0) + Occurrences(s[1..], c)
  }

  /** The position of the first `c` in `s`, or -1. */
  function IndexOf(s: string, c: char): (r: int)
    ensures -1 <= r < |s|
    ensures r >= 0 ==> s[r] == c
    ensures forall k :: 0 <= k < |s| && (r == -1 || k < r) ==> s[k] != c
  {
    if s == [] then -1
    else if s[0] == c then 0
    else var r := IndexOf(s[1..], c); if r == -1 then -1 else r + 1
  }

  /** `IndexOf` finds the first occurrence. */
  lemma FirstIndex(s: string, c: char, p: int)
    requires 0 <= p < |s| && s[p] == c
    requires forall k :: 0 <= k < p ==> s[k] != c
    ensures IndexOf(s, c) == p
  {
  }

  /** `c` occurs exactly once in `s`, at `i`, iff it occurs nowhere else. */
  lemma {:induction false} OccursOnce(s: string, c: char, i: int)
    requires 0 <= i < |s| && s[i] == c
    ensures Occurrences(s, c) == 1 <==> forall k :: 0 <= k < |s| && k != i ==> s[k] != c
  {
    if i == 0 {
      NoOccurrences(s[1..], c);
    } else {
      OccursOnce(s[1..], c, i - 1);
      NoOccurrences(s[1..], c);
      assert s[1..][i - 1] == c;
    }
  }

  lemma {:induction false} NoOccurrences(s: string, c: char)
    ensures Occurrences(s, c) == 0 <==> forall k :: 0 <= k < |s| ==> s[k] != c
  {
    if s != [] {
      NoOccurrences(s[1..], c);
    }
  }

  /** The address test written out as conditions: no whitespace, exactly one
      `@`, something before it, and after it a `.` with at least one
      character on each side. */
  predicate IsValidEmail(s: string)
  {
    var p := IndexOf(s, '@');
    (forall k :: 0 <= k < |s| ==> !IsSpace(s[k])) && Occurrences(s, '@') == 1 && p > 0 &&
    exists j :: p + 1 < j < |s| - 1 && s[j] == '.'
  }

  /** The conditions are exactly the regular expression. */
  lemma EmailConditionsMatchPattern(s: string)
    ensures IsValidEmail(s) <==> MatchesEmailPattern(s)
  {
    assert !IsSpace('@');
    if IsValidEmail(s) {
      var p := IndexOf(s, '@');
      OccursOnce(s, '@', p);
      var j :| p + 1 < j < |s| - 1 && s[j] == '.';
      assert Word(s, 0, p) && Word(s, p + 1, j) && Word(s, j + 1, |s|);
    }
    if MatchesEmailPattern(s) {
      var i, j :| 0 <= i < j < |s| && Word(s, 0, i) && s[i] == '@' && Word(s, i + 1, j)
                  && s[j] == '.' && Word(s, j + 1, |s|);
      OccursOnce(s, '@', i);
      assert IndexOf(s, '@') == i;
      assert forall k :: 0 <= k < |s| ==> !IsSpace(s[k]);
    }
  }

  /** `password.length >= 6`. */
  predicate IsValidPassword(password: string)
  {
    |password| >= 6
  }

  /** The value the effect gives `valid`. */
  predicate CredentialsValid(email: string, password: string)
  {
    IsValidEmail(email) && IsValidPassword(password)
  }

  /** A word, `@`, a word, `.` and a word make a valid address. */
  lemma ComposedAddressAccepted(local: string, domain: string, tld: string)
    requires Word(local, 0, |local|) && Word(domain, 0, |domain|) && Word(tld, 0, |tld|)
    ensures IsValidEmail(local + "@" + domain + "." + tld)
  {
    var s := local + "@" + domain + "." + tld;
    var i, j := |local|, |local| + 1 + |domain|;
    assert Word(s, 0, i) by {
      forall k | 0 <= k < i ensures WordChar(s[k]) { assert s[k] == local[k]; }
    }
    assert Word(s, i + 1, j) by {
      forall k | i + 1 <= k < j ensures WordChar(s[k]) { assert s[k] == domain[k - i - 1]; }
    }
    assert Word(s, j + 1, |s|) by {
      forall k | j + 1 <= k < |s| ensures WordChar(s[k]) { assert s[k] == tld[k - j - 1]; }
    }
    assert s[i] == '@' && s[j] == '.';
    EmailConditionsMatchPattern(s);
  }

  /** Without an `@` no address is valid. */
  lemma NoAtRejected(s: string)
    requires forall k :: 0 <= k < |s| ==> s[k] != '@'
    ensures !IsValidEmail(s)
  {
    NoOccurrences(s, '@');
  }

  /** `bad-email` has no `@`. */
  lemma BadEmailRejected()
    ensures !IsValidEmail("bad-email")
  {
    NoAtRejected("bad-email");
  }

  /** A dot right after the `@` does not count: `wrongemail@.com` is refused. */
  lemma DotAfterAtRejected()
    ensures !IsValidEmail("wrongemail@.com")
  {
    NoDotInDomain("wrongemail@.com", 10);
  }

  /** An address whose part after the first `@` has no `.` strictly inside
      it is refused. */
  lemma NoDotInDomain(s: string, p: int)
    requires 0 <= p < |s| && s[p] == '@'
    requires forall k :: 0 <= k < p ==> s[k] != '@'
    requires forall j :: p + 1 < j < |s| - 1 ==> s[j] != '.'
    ensures !IsValidEmail(s)
  {
    FirstIndex(s, '@', p);
  }

  /** A password shorter than six characters is refused, whatever the address. */
  lemma ShortPasswordRejected(email: string, password: string)
    requires |password| < 6
    ensures !CredentialsValid(email, password)
  {
  }

  class Form {
    const hasCallback: bool
    var email: string
    var password: string
    var valid: bool

    /** The first render: the fields hold the initial values (empty when not
        given) and `valid` is false until the effect has run. */
    constructor (initialEmail: Option<string>, initialPassword: Option<string>, hasCallback: bool)
      ensures email == (if initialEmail.Some? then initialEmail.value else "")
      ensures password == (if initialPassword.Some? then initialPassword.value else "")
      ensures !valid && this.hasCallback == hasCallback
    {
      email := if initialEmail.Some? then initialEmail.value else "";
      password := if initialPassword.Some? then initialPassword.value else "";
      valid := false;
      this.hasCallback := hasCallback;
    }

    /** The effect on `[email, password]`, run after mounting. */
    method RunEffect()
      modifies this`valid
      ensures valid == CredentialsValid(email, password)
    {
      valid := IsValidEmail(email) && IsValidPassword(password);
    }

    /** Typing into the e-mail field, followed by the effect. */
    method ChangeEmail(value: string)
      modifies this`email, this`valid
      ensures email == value && valid == CredentialsValid(value, password)
    {
      email := value;
      RunEffect();
    }

    /** Typing into the password field, followed by the effect. */
    method ChangePassword(value: string)
      modifies this`password, this`valid
      ensures password == value && valid == CredentialsValid(email, value)
    {
      password := value;
      RunEffect();
    }

    /** `handleSubmit`: `onSubmit(email, password)` runs iff there is a
        callback and the form is valid. */
    method Submit() returns (sent: Option<(string, string)>)
      ensures sent.Some? <==> hasCallback && valid
      ensures sent.Some? ==> sent.value == (email, password)
    {
      if hasCallback && valid {
        sent := Some((email, password));
      } else {
        sent := None;
      }
    }

    /** `disabled={!valid}`. */
    function SubmitDisabled(): bool
      reads this
    {
      !valid
    }
  }

  /** A form mounted without initial values keeps its button disabled. */
  method MountEmpty(hasCallback: bool) returns (f: Form)
    ensures f.SubmitDisabled() && f.email == "" && f.password == ""
  {
    f := new Form(None, None, hasCallback);
    f.RunEffect();
  }

  /** Entering a valid address and password enables the button, and submit
      then hands exactly those credentials over. */
  method EnterAndSubmit(f: Form, email: string, password: string) returns (sent: Option<(string, string)>)
    requires f.hasCallback && IsValidEmail(email) && |password| >= 6
    modifies f
    ensures !f.SubmitDisabled() && sent == Some((email, password))
  {
    f.ChangeEmail(email);
    f.ChangePassword(password);
    sent := f.Submit();
  }
}
