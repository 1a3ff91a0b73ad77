/**
 * The customer login check of `login_user`: the first active customer whose
 * stripped username equals the stripped input is the only candidate, and
 * the login succeeds when its stored hash verifies the stripped password.
 *
 * The credential authority (werkzeug's salted hashing) is a function
 * `hash` passed in; checking a password against a stored hash is
 * `hash(password) == stored`.
 */
module Authentication {
  import opened Wrappers
  import opened Records
  import opened Credentials

  /** `check_password_hash(stored, password)`. */
  predicate Verifies(hash: string -> string, stored: string, password: string) {
    hash(password) == stored
  }

  /** Customer `c` is a login candidate for the stripped username `username`. */
  predicate IsCandidate(c: Customer, username: string) {
    Strip(c.username) == username && c.status == Active
  }

  /** Row `k` is the first login candidate for `username`. */
  predicate IsFirstCandidate(cs: seq<Customer>, k: int, username: string) {
    && 0 <= k < |cs|
    && IsCandidate(cs[k], username)
    && forall j :: 0 <= j < k ==> !IsCandidate(cs[j], username)
  }

  /** `customers_df[(username.str.strip() == username) & (status == 'active')].iloc[0]`, by position. */
  function FirstCandidate(cs: seq<Customer>, username: string): (r: Option<nat>)
    ensures r.Some? ==> IsFirstCandidate(cs, r.value, username)
    ensures r.None? ==> forall j :: 0 <= j < |cs| ==> !IsCandidate(cs[j], username)
  {
    if cs == [] then None
    else if IsCandidate(cs[0], username) then Some(0)
    else match FirstCandidate(cs[1..], username)
      case None => None
      case Some(k) =>
        assert forall j :: 1 <= j <= k ==> cs[j] == cs[1..][j - 1];
        Some(k + 1)
  }

  /** The customer `login_user(username, password)` logs in, if any. */
  function Authenticate(cs: seq<Customer>, hash: string -> string, username: string, password: string): (r: Option<Customer>)
    ensures r.Some? ==> r.value in cs && IsCandidate(r.value, Strip(username))
    ensures r.Some? ==> Verifies(hash, Strip(r.value.passwordHash), Strip(password))
    ensures r.Some? ==> exists k :: IsFirstCandidate(cs, k, Strip(username)) && r.value == cs[k]
  {
    match FirstCandidate(cs, Strip(username))
    case None => None
    case Some(k) =>
      if Verifies(hash, Strip(cs[k].passwordHash), Strip(password)) then Some(cs[k]) else None
  }

  /** There is at most one first candidate. */
  lemma FirstCandidateUnique(cs: seq<Customer>, k: int, k': int, username: string)
    requires IsFirstCandidate(cs, k, username) && IsFirstCandidate(cs, k', username)
    ensures k == k'
  {
  }

  /**
   * A login succeeds exactly when the first active customer with the
   * stripped username has a hash that verifies the stripped password; a
   * later customer with the same username and the right password does not
   * help.
   */
  lemma AuthenticateExactly(cs: seq<Customer>, hash: string -> string, username: string, password: string)
    ensures Authenticate(cs, hash, username, password).Some? <==>
            exists k :: IsFirstCandidate(cs, k, Strip(username)) && Verifies(hash, Strip(cs[k].passwordHash), Strip(password))
  {
    var u := Strip(username);
    var first := FirstCandidate(cs, u);
    if first.Some? {
      forall k | IsFirstCandidate(cs, k, u) ensures k == first.value {
        FirstCandidateUnique(cs, k, first.value, u);
      }
    }
  }

  /** What the login returns; every failure carries the same message. */
  function LoginReply(who: Option<Customer>): (r: LoginResult)
    ensures who.None? <==> r == LoginRefused(InvalidCredentials)
    ensures who.Some? ==> r.LoggedIn? && r.customerId == who.value.id && r.due == who.value.due
    ensures who.Some? ==> r.name == who.value.name && r.email == who.value.email && r.phone == who.value.phone
  {
    match who
    case None => LoginRefused(InvalidCredentials)
    case Some(c) => LoggedIn(c.id, c.name, c.due, c.email, c.phone)
  }

  /** The hashes the credential authority produces carry no surrounding whitespace. */
  ghost predicate TrimmedHashes(hash: string -> string) {
    forall p :: Strip(hash(p)) == hash(p)
  }

  /** A candidate appended after rows that are not candidates is the first candidate. */
  lemma FirstCandidateAppended(cs: seq<Customer>, c: Customer, username: string)
    requires forall j :: 0 <= j < |cs| ==> !IsCandidate(cs[j], username)
    requires IsCandidate(c, username)
    ensures FirstCandidate(cs + [c], username) == Some(|cs|)
  {
    var all := cs + [c];
    assert forall j :: 0 <= j < |cs| ==> all[j] == cs[j];
    assert IsFirstCandidate(all, |cs|, username);
    FirstCandidateUnique(all, |cs|, FirstCandidate(all, username).value, username);
  }

  /**
   * A customer just added with generated credentials can log in with them,
   * provided no earlier active customer has the same username and the name
   * has no whitespace other than plain spaces.
   */
  lemma LoginAfterAdd(cs: seq<Customer>, hash: string -> string, c: Customer, name: string, digits: string)
    requires TrimmedHashes(hash)
    requires IsFourDigits(digits)
    requires forall i :: 0 <= i < |name| ==> name[i] == ' ' || !IsWhitespace(name[i])
    requires c.username == Username(name) && c.passwordHash == hash(Password(name, digits)) && c.status == Active
    requires forall j :: 0 <= j < |cs| ==> !IsCandidate(cs[j], Username(name))
    ensures Authenticate(cs + [c], hash, Username(name), Password(name, digits)) == Some(c)
  {
    GeneratedCredentialsAreTrimmed(name, digits);
    var u, p := Username(name), Password(name, digits);
    assert Strip(hash(p)) == hash(p);
    FirstCandidateAppended(cs, c, u);
    assert FirstCandidate(cs + [c], Strip(u)) == Some(|cs|);
    assert Verifies(hash, Strip((cs + [c])[|cs|].passwordHash), Strip(p));
  }
}
