/**
 The CLI's credential store on Linux: an unreliable keyring plus a file of tokens and tombstones,
 which together must behave like one register per account. Every reply of the keyring and of the
 file system is an input, including operations that report an error after taking effect and
 crashes between any two effects.
 */
module Credentials {
  import opened Common

  datatype FileCredential = Missing | Token(token: string) | Deleted

  /** `Unavailable` is a platform failure or a locked store; `Refused` is any other keyring error. */
  datatype KeyringReply = KeyringOk | Unavailable(applied: bool) | Refused(applied: bool) | KeyringCrash(applied: bool)

  /** A failed write may already have been renamed into place when syncing its directory fails. */
  datatype FileReply = FileOk | FileFails(applied: bool) | FileCrash(applied: bool)

  datatype Replies = Replies(readable: bool, keyring: KeyringReply, file: FileReply)

  datatype Outcome = Returned(token: Option<string>) | Failed | Crashed

  /** The file's two collections and the keyring. */
  datatype Store = Store(tokens: map<string, string>, deleted: set<string>, keyring: map<string, string>)

  function FileState(s: Store, account: string): FileCredential {
    if account in s.tokens then Token(s.tokens[account])
    else if account in s.deleted then Deleted
    else Missing
  }

  function WithFile(s: Store, account: string, c: FileCredential): Store {
    var tokens, deleted := s.tokens - {account}, s.deleted - {account};
    match c
    case Missing => s.(tokens := tokens, deleted := deleted)
    case Token(t) => s.(tokens := tokens[account := t], deleted := deleted)
    case Deleted => s.(tokens := tokens, deleted := deleted + {account})
  }

  /** The register that the pair stands for: file state wins, otherwise the keyring counts. */
  function Register(s: Store, account: string): Option<string> {
    match FileState(s, account)
    case Token(t) => Some(t)
    case Deleted => None
    case Missing => if account in s.keyring then Some(s.keyring[account]) else None
  }

  predicate KeyringApplied(r: KeyringReply) {
    r == KeyringOk || r.applied
  }

  predicate FileApplied(r: FileReply) {
    r == FileOk || r.applied
  }

  /** Some primitive reported an error although it had taken effect. */
  predicate Dirty(r: Replies) {
    (r.keyring != KeyringOk && r.keyring.applied) || (r.file != FileOk && r.file.applied)
  }

  /** The replies let the write of `value` (a token, or none for a deletion) reach the register. */
  predicate TookEffect(s: Store, account: string, value: Option<string>, r: Replies) {
    r.readable &&
    if FileState(s, account) == Missing
    then KeyringApplied(r.keyring) || (r.keyring.Unavailable? && FileApplied(r.file))
    else if value.Some? then FileApplied(r.file)
    else FileState(s, account) == Deleted || ((r.keyring == KeyringOk || r.keyring.Unavailable?) && FileApplied(r.file))
  }

  /** A set turns to the keyring only for an account without file state; a deletion always does. */
  predicate AsksKeyring(s: Store, account: string, value: Option<string>, r: Replies) {
    r.readable && (value.None? || FileState(s, account) == Missing)
  }

  /** The file is written where it already rules the account, and as a fallback. */
  predicate WritesFile(s: Store, account: string, value: Option<string>, r: Replies) {
    r.readable &&
    if value.Some? then FileState(s, account) != Missing || r.keyring.Unavailable?
    else if FileState(s, account) == Missing then r.keyring.Unavailable?
    else r.keyring == KeyringOk || (r.keyring.Unavailable? && FileState(s, account) != Deleted)
  }

  /** How a write ends: with the crash or the error of a primitive it reached, else it succeeds. */
  function Ended(s: Store, account: string, value: Option<string>, r: Replies): Outcome {
    if || (AsksKeyring(s, account, value, r) && r.keyring.KeyringCrash?)
       || (WritesFile(s, account, value, r) && r.file.FileCrash?)
    then Crashed
    else if || !r.readable || (AsksKeyring(s, account, value, r) && r.keyring.Refused?)
            || (WritesFile(s, account, value, r) && r.file.FileFails?)
    then Failed
    else Returned(None)
  }

  class CredentialStore {
    var tokens: map<string, string>
    var deleted: set<string>
    var keyring: map<string, string>

    ghost function Contents(): Store
      reads this
    {
      Store(tokens, deleted, keyring)
    }

    constructor (tokens: map<string, string>, deleted: set<string>, keyring: map<string, string>)
      ensures Contents() == Store(tokens, deleted, keyring)
    {
      this.tokens, this.deleted, this.keyring := tokens, deleted, keyring;
    }

    method GetFile(account: string) returns (c: FileCredential)
      ensures c == FileState(Contents(), account)
    {
      if account in tokens {
        c := Token(tokens[account]);
      } else if account in deleted {
        c := Deleted;
      } else {
        c := Missing;
      }
    }

    method WriteFile(account: string, c: FileCredential, reply: FileReply) returns (out: Outcome)
      modifies this
      ensures Contents() == if FileApplied(reply) then WithFile(old(Contents()), account, c) else old(Contents())
      ensures out == if reply == FileOk then Returned(None) else if reply.FileFails? then Failed else Crashed
    {
      if reply == FileOk || reply.applied {
        tokens := tokens - {account};
        deleted := deleted - {account};
        match c {
          case Missing =>
          case Token(t) => tokens := tokens[account := t];
          case Deleted => deleted := deleted + {account};
        }
      }
      out := if reply == FileOk then Returned(None) else if reply.FileFails? then Failed else Crashed;
    }

    method Get(account: string, r: Replies) returns (out: Outcome)
      ensures out.Returned? && out.token.Some? ==> out.token == Register(Contents(), account)
      ensures out.Returned? && out.token.None? ==>
                Register(Contents(), account).None? ||
                (r.keyring.Unavailable? && FileState(Contents(), account) == Missing)
      ensures r.readable && r.keyring == KeyringOk ==> out == Returned(Register(Contents(), account))
      ensures out == Failed <==> !r.readable || (FileState(Contents(), account) == Missing && r.keyring.Refused?)
      ensures out == Crashed <==> r.readable && FileState(Contents(), account) == Missing && r.keyring.KeyringCrash?
    {
      if !r.readable { return Failed; }
      var file := GetFile(account);
      match file {
        case Token(t) => return Returned(Some(t));
        case Deleted => return Returned(None);
        case Missing =>
      }
      match r.keyring {
        case KeyringOk => out := Returned(if account in keyring then Some(keyring[account]) else None);
        case Unavailable(_) => out := Returned(None);
        case Refused(_) => out := Failed;
        case KeyringCrash(_) => out := Crashed;
      }
    }

    method Set(account: string, token: string, r: Replies) returns (out: Outcome)
      modifies this
      ensures WriteIs(old(Contents()), Contents(), account, Some(token), r, out)
      // A file state rules the account; without one the keyring does, and the file stands in for it.
      ensures out == Returned(None) <==>
                && r.readable
                && if old(FileState(Contents(), account)) != Missing then r.file == FileOk
                   else r.keyring == KeyringOk || (r.keyring.Unavailable? && r.file == FileOk)
      ensures out == Returned(None) && old(FileState(Contents(), account)) == Missing && r.keyring == KeyringOk ==>
                keyring == old(keyring)[account := token] && FileState(Contents(), account) == Missing
      // The plain-text file is used only when it already rules the account or the keyring is unavailable.
      ensures FileState(Contents(), account) != old(FileState(Contents(), account)) ==>
                old(FileState(Contents(), account)) != Missing || r.keyring.Unavailable?
      ensures old(FileState(Contents(), account)) != Missing || !r.readable ==> keyring == old(keyring)
    {
      if !r.readable { return Failed; }
      var current := GetFile(account);
      if current != Missing {
        out := WriteFile(account, Token(token), r.file);
        return;
      }
      if r.keyring == KeyringOk || r.keyring.applied { keyring := keyring[account := token]; }
      match r.keyring {
        case KeyringOk => out := Returned(None);
        case Unavailable(_) => out := WriteFile(account, Token(token), r.file);
        case Refused(_) => out := Failed;
        case KeyringCrash(_) => out := Crashed;
      }
    }

    method Delete(account: string, r: Replies) returns (out: Outcome)
      modifies this
      ensures WriteIs(old(Contents()), Contents(), account, None, r, out)
      // The keyring is cleared where it can be reached; the file is cleared, or given a tombstone, where it must be.
      ensures out == Returned(None) <==>
                && r.readable
                && if r.keyring == KeyringOk then old(FileState(Contents(), account)) == Missing || r.file == FileOk
                   else r.keyring.Unavailable? && (old(FileState(Contents(), account)) == Deleted || r.file == FileOk)
      // With a reachable keyring a successful deletion leaves no trace; without it, a tombstone.
      ensures out.Returned? && r.keyring == KeyringOk ==>
                account !in keyring && FileState(Contents(), account) == Missing
      ensures out.Returned? && r.keyring.Unavailable? ==> FileState(Contents(), account) == Deleted
    {
      if !r.readable { return Failed; }
      var current := GetFile(account);
      if r.keyring == KeyringOk || r.keyring.applied { keyring := keyring - {account}; }
      match r.keyring {
        case KeyringOk =>
          if current != Missing { out := WriteFile(account, Missing, r.file); } else { out := Returned(None); }
        case Unavailable(_) =>
          if current == Deleted { out := Returned(None); } else { out := WriteFile(account, Deleted, r.file); }
        case Refused(_) => out := Failed;
        case KeyringCrash(_) => out := Crashed;
      }
    }
  }

  /**
   What a write of `value` (a token, or none for a deletion) does: how it ends follows from the
   replies it met; success stores the value; however it ends, the register holds the new value
   exactly when the replies let it through; an error without a late effect leaves the old value.
   Other accounts are untouched.
   */
  ghost predicate WriteIs(s: Store, s': Store, account: string, value: Option<string>, r: Replies, out: Outcome) {
    && (forall a | a != account :: Register(s', a) == Register(s, a) && FileState(s', a) == FileState(s, a))
    && out == Ended(s, account, value, r)
    && Register(s', account) == (if TookEffect(s, account, value, r) then value else Register(s, account))
    && (out.Returned? ==> Register(s', account) == value)
    && (out == Failed && !Dirty(r) ==> Register(s', account) == Register(s, account))
  }

  /** What is written to the file reads back, and no other account changes; a token counts before a tombstone. */
  lemma FileReadsBack(s: Store, account: string, c: FileCredential, other: string)
    ensures FileState(WithFile(s, account, c), account) == c
    ensures other != account ==> FileState(WithFile(s, account, c), other) == FileState(s, other)
    ensures account in s.tokens ==> FileState(s, account) == Token(s.tokens[account])
  {
  }

  /**
   "An error changes nothing" fails when the renamed credential file cannot be synced: the set
   reports an error, and the next get returns the new token.
   */
  method FailedSetCanTakeEffect(account: string, before: string, after: string) returns (out: Outcome, next: Outcome)
    ensures out == Failed && next == Returned(Some(after))
  {
    var store := new CredentialStore(map[account := before], {}, map[]);
    out := store.Set(account, after, Replies(true, KeyringOk, FileFails(true)));
    next := store.Get(account, Replies(true, KeyringOk, FileOk));
  }

  // ----- any sequence of operations -----

  datatype Op =
    | SetOp(account: string, token: string, replies: Replies)
    | DeleteOp(account: string, replies: Replies)
    | GetOp(account: string, replies: Replies)

  /** One operation of the store, as its method contracts allow it. */
  ghost predicate OpIs(s: Store, s': Store, op: Op, out: Outcome) {
    match op
    case SetOp(a, t, r) => WriteIs(s, s', a, Some(t), r, out)
    case DeleteOp(a, r) => WriteIs(s, s', a, None, r, out)
    case GetOp(a, r) =>
      && s' == s
      && (out.Returned? && out.token.Some? ==> out.token == Register(s, a))
      && (out.Returned? && out.token.None? ==>
            Register(s, a).None? || (r.keyring.Unavailable? && FileState(s, a) == Missing))
  }

  datatype Event = Event(op: Op, out: Outcome)

  ghost predicate IsHistory(stores: seq<Store>, events: seq<Event>) {
    && |stores| == |events| + 1
    && forall k | 0 <= k < |events| :: OpIs(stores[k], stores[k + 1], events[k].op, events[k].out)
  }

  /** The values an account may hold after the first `k` operations, given their outcomes and which errors came late. */
  ghost function Possible(initial: Option<string>, events: seq<Event>, k: nat, account: string): set<Option<string>>
    requires k <= |events|
  {
    if k == 0 then {initial}
    else
      var before, e := Possible(initial, events, k - 1, account), events[k - 1];
      if e.op.GetOp? || e.op.account != account then before
      else
        var value := if e.op.SetOp? then Some(e.op.token) else None;
        if e.out.Returned? then {value}
        else if e.out == Failed && !Dirty(e.op.replies) then before
        else before + {value}
  }

  lemma {:induction false} RegisterIsPossible(stores: seq<Store>, events: seq<Event>, k: nat, account: string)
    requires IsHistory(stores, events) && k <= |events|
    ensures Register(stores[k], account) in Possible(Register(stores[0], account), events, k, account)
  {
    hide Register, FileState;
    if k > 0 {
      RegisterIsPossible(stores, events, k - 1, account);
      assert OpIs(stores[k - 1], stores[k], events[k - 1].op, events[k - 1].out);
    }
  }

  /** A returned token is never older than the last successful write, in any history of the account. */
  lemma GetNeverReturnsAnOlderToken(stores: seq<Store>, events: seq<Event>, k: nat)
    requires IsHistory(stores, events) && k < |events| && events[k].op.GetOp?
    requires events[k].out.Returned? && events[k].out.token.Some?
    ensures events[k].out.token in
            Possible(Register(stores[0], events[k].op.account), events, k, events[k].op.account)
  {
    RegisterIsPossible(stores, events, k, events[k].op.account);
    assert OpIs(stores[k], stores[k + 1], events[k].op, events[k].out);
  }

  /** Errors that took no effect, and no crashes. */
  ghost predicate CleanErrors(events: seq<Event>) {
    forall k | 0 <= k < |events| :: events[k].out == Failed ==> !Dirty(events[k].op.replies)
  }

  ghost predicate NoCrashes(events: seq<Event>) {
    forall k | 0 <= k < |events| :: events[k].out != Crashed
  }

  /** The value of the last successful write of an account, or the initial one. */
  ghost function LastWritten(initial: Option<string>, events: seq<Event>, k: nat, account: string): Option<string>
    requires k <= |events|
  {
    if k == 0 then initial
    else
      var e := events[k - 1];
      if e.op.GetOp? || e.op.account != account || !e.out.Returned? then LastWritten(initial, events, k - 1, account)
      else if e.op.SetOp? then Some(e.op.token) else None
  }

  lemma {:induction false} CleanHistoryIsExact(initial: Option<string>, events: seq<Event>, k: nat, account: string)
    requires k <= |events| && CleanErrors(events) && NoCrashes(events)
    ensures Possible(initial, events, k, account) == {LastWritten(initial, events, k, account)}
  {
    if k > 0 {
      CleanHistoryIsExact(initial, events, k - 1, account);
    }
  }

  /**
   The pair refines one register: with clean errors, a get returns the token of the last successful
   set, nothing after a successful delete, or nothing while the keyring is unreachable and no file
   state exists; an operation that fails changes nothing.
   */
  lemma PairRefinesRegister(stores: seq<Store>, events: seq<Event>, k: nat)
    requires IsHistory(stores, events) && k < |events| && CleanErrors(events) && NoCrashes(events)
    ensures events[k].op.GetOp? && events[k].out.Returned? ==>
              var last := LastWritten(Register(stores[0], events[k].op.account), events, k, events[k].op.account);
              events[k].out.token == last ||
              (events[k].out.token == None && events[k].op.replies.keyring.Unavailable?
               && FileState(stores[k], events[k].op.account) == Missing)
    ensures events[k].out == Failed ==> forall a :: Register(stores[k + 1], a) == Register(stores[k], a)
  {
    var a := events[k].op.account;
    RegisterIsPossible(stores, events, k, a);
    CleanHistoryIsExact(Register(stores[0], a), events, k, a);
    assert OpIs(stores[k], stores[k + 1], events[k].op, events[k].out);
  }
}
