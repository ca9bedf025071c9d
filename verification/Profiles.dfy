/**
 The CLI's profiles: a config file that publishes a server URL per profile name, and one credential
 register per account. Updates apply several effects in order, and each effect may fail, fail after
 taking effect, or be the last one before a crash.
 */
module Profiles {
  import opened Common
  import opened Decimal
  import opened Utf8
  import Credentials

  /** URL parsing as an idempotent normalization; `None` is an unusable URL. */
  type Normalize = string -> Option<string>

  ghost predicate Idempotent(normalize: Normalize) {
    forall u | normalize(u).Some? :: normalize(normalize(u).value) == normalize(u)
  }

  // ----- account names -----

  function CredentialAccount(profile: string, baseUrl: string): string {
    "v1:" + (Numeral(Length(profile)) + (":" + (profile + baseUrl)))
  }

  /** The numeral of an account name ends at its first colon. */
  lemma NumeralEnds(a: string, b: string, x: string, y: string)
    requires Digits(a) && Digits(b) && a + (":" + x) == b + (":" + y)
    ensures a == b && x == y
  {
    var s := a + (":" + x);
    assert forall i | 0 <= i < |a| :: s[i] == a[i];
    assert forall i | 0 <= i < |b| :: s[i] == b[i];
    assert s[|a|] == ':' && s[|b|] == ':';
    assert a == s[..|a|] && b == s[..|b|];
    assert x == s[|a| + 1..] && y == s[|b| + 1..];
  }

  /** Different profiles or different URLs never share an account. */
  lemma AccountIsInjective(p: string, u: string, q: string, v: string)
    requires CredentialAccount(p, u) == CredentialAccount(q, v)
    ensures p == q && u == v
  {
    hide Numeral, Length;
    var x, y := Numeral(Length(p)) + (":" + (p + u)), Numeral(Length(q)) + (":" + (q + v));
    assert x == CredentialAccount(p, u)[3..] && y == CredentialAccount(q, v)[3..];
    NumeralEnds(Numeral(Length(p)), Numeral(Length(q)), p + u, q + v);
    NumeralReadsBack(Length(p));
    NumeralReadsBack(Length(q));
    EqualLengthPrefixes(p, q, u, v);
  }

  // ----- the store -----

  /** How one effect ends; `applied` says whether it took place although it did not return. */
  datatype Reply = Fine | Fails(applied: bool) | Crashes(applied: bool)

  predicate Applied(r: Reply) {
    r == Fine || r.applied
  }

  datatype Status = Completed | Failed | Crashed

  function StatusOf(r: Reply): Status {
    match r
    case Fine => Completed
    case Fails(_) => Failed
    case Crashes(_) => Crashed
  }

  datatype State = State(profiles: map<string, string>, current: Option<string>, credentials: map<string, string>)

  /** The credential that using a published profile finds. */
  function Found(s: State, name: string, normalize: Normalize): Option<string>
    requires name in s.profiles
  {
    var url := normalize(s.profiles[name]);
    if url.None? then None else Lookup(s.credentials, CredentialAccount(name, url.value))
  }

  function Lookup(credentials: map<string, string>, account: string): Option<string> {
    if account in credentials then Some(credentials[account]) else None
  }

  /**
   What one update of profile `name` may leave behind, wherever it stopped. Other profiles keep
   their URL and credential. The profile itself, if it points where it pointed before, finds its old
   credential or one in `writes`; if it is new or points elsewhere, it finds exactly `supplied`.
   */
  ghost predicate SafeUpdate(s: State, s': State, name: string, supplied: Option<string>, writes: set<Option<string>>,
                             normalize: Normalize) {
    && (forall n | n in s.profiles && n != name ::
          n in s'.profiles && s'.profiles[n] == s.profiles[n] && Found(s', n, normalize) == Found(s, n, normalize))
    && (forall n | n in s'.profiles && n != name :: n in s.profiles)
    && (name in s'.profiles ==>
          if SameTarget(s, s', name, normalize)
          then Found(s', name, normalize) == Found(s, name, normalize) || Found(s', name, normalize) in writes
          else Found(s', name, normalize) == supplied)
  }

  ghost predicate SameTarget(s: State, s': State, name: string, normalize: Normalize)
    requires name in s'.profiles
  {
    name in s.profiles && normalize(s.profiles[name]) == normalize(s'.profiles[name])
  }

  /** The credentials after storing a token under an account, or removing it, with this reply. */
  function Written(credentials: map<string, string>, account: string, token: Option<string>, r: Reply)
    : map<string, string>
  {
    if !Applied(r) then credentials
    else if token.Some? then credentials[account := token.value]
    else credentials - {account}
  }

  /** The map holds, for every account, the register that keyring and file together stand for. */
  ghost predicate Represents(credentials: map<string, string>, s: Credentials.Store) {
    forall a :: Lookup(credentials, a) == Credentials.Register(s, a)
  }

  /**
   Every write of the credential store, whatever its primitives replied, is a write of the register
   with some reply of its own: it ends the same way, and takes effect exactly when that reply says so.
   */
  lemma StoreWritesAreReplies(credentials: map<string, string>, s: Credentials.Store, s': Credentials.Store,
                              account: string, value: Option<string>, r: Credentials.Replies, out: Credentials.Outcome)
    returns (reply: Reply)
    requires Represents(credentials, s) && Credentials.WriteIs(s, s', account, value, r, out)
    ensures Represents(Written(credentials, account, value, reply), s')
    ensures match StatusOf(reply)
            case Completed => out == Credentials.Returned(None)
            case Failed => out == Credentials.Failed
            case Crashed => out == Credentials.Crashed
  {
    hide Credentials.Register, Credentials.FileState;
    var applied := Credentials.TookEffect(s, account, value, r);
    reply := match out case Returned(_) => Fine case Failed => Fails(applied) case Crashed => Crashes(applied);
    var written := Written(credentials, account, value, reply);
    forall a ensures Lookup(written, a) == Credentials.Register(s', a) {
      assert Lookup(credentials, a) == Credentials.Register(s, a);
    }
  }

  /** The normalized URL of a published profile, if it has a usable one. */
  function UrlOf(profiles: map<string, string>, name: string, normalize: Normalize): Option<string> {
    if name in profiles then normalize(profiles[name]) else None
  }

  /** No profile of that name, or one with a usable URL. */
  predicate Usable(profiles: map<string, string>, name: string, normalize: Normalize) {
    name in profiles ==> normalize(profiles[name]).Some?
  }

  /** The config file names the profile at this URL, and as the current one if there was none. */
  ghost predicate PublishedAt(s: State, s': State, name: string, url: string) {
    && s'.profiles == s.profiles[name := url]
    && s'.current == if s.current.None? then Some(name) else s.current
  }

  /** A completed update: the profile is published at the URL given, and the credential of its old one is gone. */
  ghost predicate Updated(s: State, s': State, name: string, baseUrl: string, normalize: Normalize) {
    && normalize(baseUrl).Some? && PublishedAt(s, s', name, normalize(baseUrl).value)
    && var before := UrlOf(s.profiles, name, normalize);
       before.Some? && before != normalize(baseUrl) ==> CredentialAccount(name, before.value) !in s'.credentials
  }

  /** The config file is as before, or names the profile at the URL given. */
  ghost predicate ConfigKeptOrUpdated(s: State, s': State, name: string, baseUrl: string, normalize: Normalize) {
    || (s'.profiles == s.profiles && s'.current == s.current)
    || (normalize(baseUrl).Some? && PublishedAt(s, s', name, normalize(baseUrl).value))
  }

  class ProfileStore {
    const normalize: Normalize
    var profiles: map<string, string>
    var current: Option<string>
    var credentials: map<string, string>

    ghost function Contents(): State
      reads this
    {
      State(profiles, current, credentials)
    }

    constructor (normalize: Normalize, s: State)
      ensures this.normalize == normalize && Contents() == s
    {
      this.normalize := normalize;
      profiles, current, credentials := s.profiles, s.current, s.credentials;
    }

    /** Store a token, or remove the credential of an account. */
    method WriteCredential(account: string, token: Option<string>, r: Reply) returns (status: Status)
      modifies this`credentials
      ensures status == StatusOf(r)
      ensures credentials == Written(old(credentials), account, token, r)
    {
      if r == Fine || r.applied {
        credentials := if token.Some? then credentials[account := token.value] else credentials - {account};
      }
      status := StatusOf(r);
    }

    /** Replace the config file atomically. */
    method Save(newProfiles: map<string, string>, newCurrent: Option<string>, r: Reply) returns (status: Status)
      modifies this`profiles, this`current
      ensures status == StatusOf(r)
      ensures Applied(r) ==> profiles == newProfiles && current == newCurrent
      ensures !Applied(r) ==> profiles == old(profiles) && current == old(current)
    {
      if r == Fine || r.applied { profiles, current := newProfiles, newCurrent; }
      status := StatusOf(r);
    }

    /** Publish `name` at a normalized URL and then drop the credential of its previous account. */
    method Publish(name: string, url: string, oldUrl: Option<string>, save: Reply, cleanup: Reply)
      returns (status: Status)
      requires normalize(url) == Some(url)
      requires oldUrl == if name in profiles then normalize(profiles[name]) else None
      modifies this
      ensures Applied(save) ==>
                profiles == old(profiles)[name := url]
                      && current == if old(current).None? then Some(name) else old(current)
      ensures !Applied(save) ==> profiles == old(profiles) && current == old(current)
      ensures credentials == old(credentials) ||
              (Applied(save) && oldUrl.Some? && oldUrl.value != url
               && credentials == old(credentials) - {CredentialAccount(name, oldUrl.value)})
      ensures status == Completed && oldUrl.Some? && oldUrl.value != url ==>
                CredentialAccount(name, oldUrl.value) !in credentials
      ensures status == Completed <==> save == Fine && (oldUrl.Some? && oldUrl.value != url ==> cleanup == Fine)
    {
      hide CredentialAccount;
      var newCurrent := if current.None? then Some(name) else current;
      status := Save(profiles[name := url], newCurrent, save);
      if status != Completed { return; }
      if oldUrl.Some? && CredentialAccount(name, oldUrl.value) != CredentialAccount(name, url) {
        status := WriteCredential(CredentialAccount(name, oldUrl.value), None, cleanup);
      } else {
        assert oldUrl.Some? ==> oldUrl.value == url by {
          if oldUrl.Some? { AccountIsInjective(name, oldUrl.value, name, url); }
        }
      }
    }

    method SetProfile(name: string, baseUrl: string, token: Option<string>, first: Reply, save: Reply, cleanup: Reply)
      returns (status: Status)
      requires Idempotent(normalize)
      modifies this
      ensures SafeUpdate(old(Contents()), Contents(), name, token, if token.Some? then {token} else {}, normalize)
      ensures ConfigKeptOrUpdated(old(Contents()), Contents(), name, baseUrl, normalize)
      ensures status == Completed ==>
                && Updated(old(Contents()), Contents(), name, baseUrl, normalize)
                && (token.Some? ==> Found(Contents(), name, normalize) == token)
      ensures var before := UrlOf(old(profiles), name, normalize);
              status == Completed <==>
                && normalize(baseUrl).Some? && Usable(old(profiles), name, normalize) && save == Fine
                && (token.Some? || before != normalize(baseUrl) ==> first == Fine)
                && (before.Some? && before != normalize(baseUrl) ==> cleanup == Fine)
    {
      hide CredentialAccount, SafeUpdate, Lookup, Written, Found;
      UnchangedIsSafe(Contents(), name, token, if token.Some? then {token} else {}, normalize);
      if normalize(baseUrl).None? { return Failed; }
      var url := normalize(baseUrl).value;
      if name in profiles && normalize(profiles[name]).None? { return Failed; }
      var oldUrl := if name in profiles then normalize(profiles[name]) else None;
      ghost var s := Contents();
      ghost var writes := if token.Some? then {token} else {};
      status := Completed;
      WrittenLooksUp(credentials, CredentialAccount(name, url), token, first);
      if token.Some? {
        status := WriteCredential(CredentialAccount(name, url), token, first);
      } else if oldUrl != Some(url) {
        status := WriteCredential(CredentialAccount(name, url), None, first);
      }
      ghost var c := credentials;
      if status != Completed {
        UpdateIsSafe(s, c, Contents(), name, url, token, writes, normalize);
        return;
      }
      status := Publish(name, url, oldUrl, save, cleanup);
      AccountsDiffer(s, name, url, normalize);
      if status == Completed { FoundAtUrl(s, c, Contents(), name, url, normalize); }
      UpdateIsSafe(s, c, Contents(), name, url, token, writes, normalize);
    }

    method CompleteBrowserLogin(name: string, baseUrl: string, expected: Option<string>, token: string,
                                first: Reply, save: Reply, cleanup: Reply) returns (status: Status)
      requires Idempotent(normalize)
      modifies this
      ensures SafeUpdate(old(Contents()), Contents(), name, Some(token), {Some(token)}, normalize)
      ensures ConfigKeptOrUpdated(old(Contents()), Contents(), name, baseUrl, normalize)
      ensures status == Completed ==>
                && Updated(old(Contents()), Contents(), name, baseUrl, normalize)
                && Found(Contents(), name, normalize) == Some(token)
      ensures var before := UrlOf(old(profiles), name, normalize);
              status == Completed <==>
                && normalize(baseUrl).Some? && Usable(old(profiles), name, normalize)
                && (expected.Some? ==> normalize(expected.value).Some?)
                && before == (if expected.Some? then normalize(expected.value) else None)
                && first == Fine && save == Fine && (before.Some? && before != normalize(baseUrl) ==> cleanup == Fine)
      // A profile that changed while authentication was in progress is left alone.
      ensures UrlOf(old(profiles), name, normalize) != (if expected.Some? then normalize(expected.value) else None) ==>
                status == Failed && Contents() == old(Contents())
    {
      hide CredentialAccount, SafeUpdate, Lookup, Written, Found;
      UnchangedIsSafe(Contents(), name, Some(token), {Some(token)}, normalize);
      if name in profiles && normalize(profiles[name]).None? { return Failed; }
      var configured := if name in profiles then normalize(profiles[name]) else None;
      if expected.Some? && normalize(expected.value).None? { return Failed; }
      var wanted := if expected.Some? then normalize(expected.value) else None;
      if configured != wanted { return Failed; }
      if normalize(baseUrl).None? { return Failed; }
      var url := normalize(baseUrl).value;
      ghost var s := Contents();
      WrittenLooksUp(credentials, CredentialAccount(name, url), Some(token), first);
      status := WriteCredential(CredentialAccount(name, url), Some(token), first);
      ghost var c := credentials;
      if status != Completed {
        UpdateIsSafe(s, c, Contents(), name, url, Some(token), {Some(token)}, normalize);
        return;
      }
      status := Publish(name, url, configured, save, cleanup);
      AccountsDiffer(s, name, url, normalize);
      if status == Completed { FoundAtUrl(s, c, Contents(), name, url, normalize); }
      UpdateIsSafe(s, c, Contents(), name, url, Some(token), {Some(token)}, normalize);
    }

    method RemoveProfile(name: string, save: Reply, removal: Reply, rollback: Reply) returns (status: Status)
      modifies this
      ensures SafeUpdate(old(Contents()), Contents(), name, None, {None}, normalize)
      ensures status == Completed <==> UrlOf(old(profiles), name, normalize).Some? && save == Fine && removal == Fine
      ensures status == Completed ==>
                && profiles == old(profiles) - {name}
                && current == if old(current) == Some(name) then None else old(current)
      // A removal of the credential that fails puts the profile back.
      ensures UrlOf(old(profiles), name, normalize).Some? && save == Fine && removal.Fails? && Applied(rollback) ==>
                profiles == old(profiles) && current == old(current)
      // A profile that is still there, kept or restored, has lost its credential if and only if the removal took place.
      ensures name in profiles ==>
                && name in old(profiles)
                && Found(Contents(), name, normalize) ==
                   (if save == Fine && Applied(removal) then None else Found(old(Contents()), name, normalize))
      ensures status == Completed && old(name in profiles) && old(normalize(profiles[name])).Some? ==>
                CredentialAccount(name, old(normalize(profiles[name])).value) !in credentials
    {
      hide CredentialAccount, SafeUpdate;
      ghost var s := Contents();
      UnchangedIsSafe(s, name, None, {None}, normalize);
      if name !in profiles || normalize(profiles[name]).None? { return Failed; }
      var url := normalize(profiles[name]).value;
      var original, originalCurrent := profiles, current;
      status := Save(profiles - {name}, if current == Some(name) then None else current, save);
      if status != Completed {
        RemovalIsSafe(s, Contents(), name, url, normalize);
        return;
      }
      status := WriteCredential(CredentialAccount(name, url), None, removal);
      if status == Failed {
        var undone := Save(original, originalCurrent, rollback);
        status := if undone == Crashed then Crashed else Failed;
      }
      RemovalIsSafe(s, Contents(), name, url, normalize);
    }

    method DeleteProfileToken(name: string, baseUrl: string, removal: Reply) returns (status: Status)
      modifies this`credentials
      ensures SafeUpdate(old(Contents()), Contents(), name, None, {None}, normalize)
      ensures status == Completed ==> name in profiles && Found(Contents(), name, normalize) == None
      ensures status == Completed <==>
                && UrlOf(profiles, name, normalize).Some? && normalize(profiles[name]) == normalize(baseUrl)
                && removal == Fine
      ensures name in profiles && normalize(profiles[name]) != normalize(baseUrl) ==> credentials == old(credentials)
    {
      if name !in profiles || normalize(profiles[name]).None? || normalize(baseUrl).None? { return Failed; }
      var url := normalize(baseUrl).value;
      if normalize(profiles[name]).value != url { return Failed; }
      AccountsDiffer(Contents(), name, url, normalize);
      status := WriteCredential(CredentialAccount(name, url), None, removal);
    }
  }

  /** Writing the account of `name` at `url` leaves every other profile's account alone. */
  lemma AccountsDiffer(s: State, name: string, url: string, normalize: Normalize)
    ensures forall n | n in s.profiles && normalize(s.profiles[n]).Some? && n != name ::
              CredentialAccount(n, normalize(s.profiles[n]).value) != CredentialAccount(name, url)
    ensures name in s.profiles && normalize(s.profiles[name]).Some? && normalize(s.profiles[name]).value != url ==>
              CredentialAccount(name, normalize(s.profiles[name]).value) != CredentialAccount(name, url)
  {
    hide CredentialAccount;
    forall n | n in s.profiles && normalize(s.profiles[n]).Some?
      ensures CredentialAccount(n, normalize(s.profiles[n]).value) == CredentialAccount(name, url) ==>
                n == name && normalize(s.profiles[n]).value == url
    {
      if CredentialAccount(n, normalize(s.profiles[n]).value) == CredentialAccount(name, url) {
        AccountIsInjective(n, normalize(s.profiles[n]).value, name, url);
      }
    }
  }

  lemma WrittenLooksUp(credentials: map<string, string>, account: string, token: Option<string>, r: Reply)
    ensures var written := Written(credentials, account, token, r);
            && (forall a | a != account :: Lookup(written, a) == Lookup(credentials, a))
            && Lookup(written, account) == if Applied(r) then token else Lookup(credentials, account)
  {
  }

  /** A profile published at a URL finds what its account there holds, whether or not an old account was dropped. */
  lemma FoundAtUrl(s: State, c: map<string, string>, t: State, name: string, url: string, normalize: Normalize)
    requires normalize(url) == Some(url) && t.profiles == s.profiles[name := url]
    requires t.credentials == c ||
             (&& name in s.profiles && normalize(s.profiles[name]).Some? && normalize(s.profiles[name]) != Some(url)
              && t.credentials == c - {CredentialAccount(name, normalize(s.profiles[name]).value)})
    ensures Found(t, name, normalize) == Lookup(c, CredentialAccount(name, url))
  {
    hide CredentialAccount;
    AccountsDiffer(s, name, url, normalize);
  }

  lemma UnchangedIsSafe(s: State, name: string, supplied: Option<string>, writes: set<Option<string>>,
                        normalize: Normalize)
    ensures SafeUpdate(s, s, name, supplied, writes, normalize)
  {
  }

  /**
   The shared shape of the updates: first the credential of the new account is written, giving `c`;
   then the profile may be published; then the credential of the old account may be dropped.
   */
  lemma UpdateIsSafe(s: State, c: map<string, string>, t: State, name: string, url: string,
                     supplied: Option<string>, writes: set<Option<string>>, normalize: Normalize)
    requires normalize(url) == Some(url)
    requires name in s.profiles ==> normalize(s.profiles[name]).Some?
    requires forall a | a != CredentialAccount(name, url) :: Lookup(c, a) == Lookup(s.credentials, a)
    requires var own := CredentialAccount(name, url);
             var same := name in s.profiles && normalize(s.profiles[name]) == Some(url);
             && (same ==> Lookup(c, own) == Lookup(s.credentials, own) || Lookup(c, own) in writes)
             && (!same && t.profiles != s.profiles ==> Lookup(c, own) == supplied)
    requires t.profiles == s.profiles || t.profiles == s.profiles[name := url]
    requires t.credentials == c ||
             (&& name in s.profiles && normalize(s.profiles[name]) != Some(url) && t.profiles == s.profiles[name := url]
              && t.credentials == c - {CredentialAccount(name, normalize(s.profiles[name]).value)})
    ensures SafeUpdate(s, t, name, supplied, writes, normalize)
  {
    hide CredentialAccount;
    AccountsDiffer(s, name, url, normalize);
    AccountsDiffer(s, name, if name in s.profiles then normalize(s.profiles[name]).value else url, normalize);
    forall n | n in s.profiles && n != name ensures Found(t, n, normalize) == Found(s, n, normalize) {
      assert normalize(s.profiles[n]).Some? ==>
          var a := CredentialAccount(n, normalize(s.profiles[n]).value);
          Lookup(t.credentials, a) == Lookup(c, a) == Lookup(s.credentials, a);
    }
  }

  /** A removal, wherever it stopped and whatever it put back. */
  lemma RemovalIsSafe(s: State, t: State, name: string, url: string, normalize: Normalize)
    requires name in s.profiles && normalize(s.profiles[name]) == Some(url)
    requires t.profiles == s.profiles || t.profiles == s.profiles - {name}
    requires t.credentials == s.credentials || t.credentials == s.credentials - {CredentialAccount(name, url)}
    ensures SafeUpdate(s, t, name, None, {None}, normalize)
  {
    hide CredentialAccount;
    AccountsDiffer(s, name, url, normalize);
  }

  // ----- any sequence of updates -----

  datatype Update = Update(name: string, supplied: Option<string>, writes: set<Option<string>>)

  ghost predicate IsHistory(states: seq<State>, updates: seq<Update>, normalize: Normalize) {
    && |states| == |updates| + 1
    && forall k | 0 <= k < |updates| ::
         SafeUpdate(states[k], states[k + 1], updates[k].name, updates[k].supplied, updates[k].writes, normalize)
  }

  /** Update `k` created the profile or pointed it elsewhere. */
  ghost predicate Retargets(states: seq<State>, updates: seq<Update>, k: nat, name: string, normalize: Normalize)
    requires |states| == |updates| + 1 && k < |updates|
  {
    name in states[k + 1].profiles && updates[k].name == name && !SameTarget(states[k], states[k + 1], name, normalize)
  }

  /**
   Over any sequence of updates, each of them cut off anywhere: from the update that created a
   profile or pointed it elsewhere, the profile finds what that update supplied or what a later
   update of the same profile wrote. A credential left over from before is never picked up.
   */
  lemma {:induction false} NoLeftoverCredential(states: seq<State>, updates: seq<Update>, name: string, i: nat, k: nat,
                                                normalize: Normalize)
    requires IsHistory(states, updates, normalize) && i < k < |states|
    requires Retargets(states, updates, i, name, normalize)
    requires forall j | i < j <= k :: name in states[j].profiles
    requires forall j | i < j < k :: !Retargets(states, updates, j, name, normalize)
    ensures Found(states[k], name, normalize) == updates[i].supplied ||
            exists j :: i < j < k && updates[j].name == name && Found(states[k], name, normalize) in updates[j].writes
  {
    hide Found;
    assert SafeUpdate(states[k - 1], states[k], updates[k - 1].name, updates[k - 1].supplied, updates[k - 1].writes,
                      normalize);
    if k > i + 1 {
      NoLeftoverCredential(states, updates, name, i, k - 1, normalize);
      assert !Retargets(states, updates, k - 1, name, normalize);
    }
  }

  /** Such a profile stays without a credential until an update of its own supplies one. */
  lemma TokenlessProfileStaysTokenless(states: seq<State>, updates: seq<Update>, name: string, i: nat, k: nat,
                                       normalize: Normalize)
    requires IsHistory(states, updates, normalize) && i < k < |states|
    requires Retargets(states, updates, i, name, normalize) && updates[i].supplied == None
    requires forall j | i < j <= k :: name in states[j].profiles
    requires forall j | i < j < k :: !Retargets(states, updates, j, name, normalize)
    requires forall j | i < j < k && updates[j].name == name :: updates[j].writes <= {None}
    ensures Found(states[k], name, normalize) == None
  {
    NoLeftoverCredential(states, updates, name, i, k, normalize);
  }
}
