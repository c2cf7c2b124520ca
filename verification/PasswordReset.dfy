/** Password reset codes: paired expiring keys, their verification, and the one password change each allows. */
module PasswordReset {
  import opened Keyspace

  datatype Account = Account(id: nat)
  datatype Code = Code(uuid: nat)
  type Email = string

  const RESET_TTL := 15 * MINUTE

  datatype Change = Change(code: Code, account: Account, password: string)

  /** The three key families, the accounts' passwords, and the record of what was issued and changed. */
  datatype State = State(
    codes: map<Account, Entry<Code>>,
    tokens: map<Code, Entry<Account>>,
    verified: map<(Email, Code), Entry<string>>,
    passwords: map<Account, string>,
    issued: map<Code, Account>,
    changes: seq<Change>)

  datatype Reply = Done | AccountNotFound | TooManyEmails | MalformedCode | NotMatchedOrExpired

  /** One call; `code` is None when the text sent does not parse, and `newCode` is the identifier a new code would get. */
  datatype Event =
    | Forgot(now: int, email: Email, allowed: bool, newCode: Code)
    | Verify(now: int, email: Email, code: Option<Code>)
    | Update(now: int, email: Email, code: Option<Code>, password: string)
    | Reset(now: int, code: Option<Code>, password: string)

  /** Which account an e-mail address belongs to. */
  type Directory = map<Email, Account>

  // ---------------------------------------------------------------- the calls as functions

  /** Prolonging both keys of a live pair. */
  function Prolong(s: State, a: Account, now: int): State
    requires a in s.codes
  {
    s.(codes := Expire(s.codes, a, now, RESET_TTL), tokens := Expire(s.tokens, s.codes[a].value, now, RESET_TTL))
  }

  /** Storing both keys of a new pair. */
  function Issue(s: State, a: Account, c: Code, now: int): State {
    s.(codes := SetFor(s.codes, a, c, now, RESET_TTL), tokens := SetFor(s.tokens, c, a, now, RESET_TTL), issued := s.issued[c := a])
  }

  function ForgotStep(d: Directory, s: State, e: Event): (State, Reply)
    requires e.Forgot?
  {
    if e.email !in d then (s, AccountNotFound)
    else if !e.allowed then (s, TooManyEmails)
    else
      var a := d[e.email];
      (if Live(s.codes, a, e.now) then Prolong(s, a, e.now) else Issue(s, a, e.newCode, e.now), Done)
  }

  function VerifyStep(d: Directory, s: State, e: Event): (State, Reply)
    requires e.Verify?
  {
    if e.code.None? then (s, MalformedCode)
    else if e.email !in d then (s, AccountNotFound)
    else if Get(s.tokens, e.code.value, e.now) != Some(d[e.email]) then (s, NotMatchedOrExpired)
    else (s.(verified := SetFor(s.verified, (e.email, e.code.value), "1", e.now, RESET_TTL),
             tokens := s.tokens - {e.code.value}, codes := s.codes - {d[e.email]}), Done)
  }

  function UpdateStep(d: Directory, s: State, e: Event): (State, Reply)
    requires e.Update?
  {
    if e.code.None? then (s, MalformedCode)
    else if e.email !in d then (s, AccountNotFound)
    else if !Live(s.verified, (e.email, e.code.value), e.now) then (s, NotMatchedOrExpired)
    else (s.(passwords := s.passwords[d[e.email] := e.password], verified := s.verified - {(e.email, e.code.value)},
             changes := s.changes + [Change(e.code.value, d[e.email], e.password)]), Done)
  }

  function ResetStep(s: State, e: Event): (State, Reply)
    requires e.Reset?
  {
    if e.code.None? then (s, MalformedCode)
    else if !Live(s.tokens, e.code.value, e.now) then (s, NotMatchedOrExpired)
    else
      var a := s.tokens[e.code.value].value;
      (s.(passwords := s.passwords[a := e.password], tokens := s.tokens - {e.code.value}, codes := s.codes - {a},
          changes := s.changes + [Change(e.code.value, a, e.password)]), Done)
  }

  function Step(d: Directory, s: State, e: Event): (State, Reply) {
    match e
    case Forgot(_, _, _, _) => ForgotStep(d, s, e)
    case Verify(_, _, _) => VerifyStep(d, s, e)
    case Update(_, _, _, _) => UpdateStep(d, s, e)
    case Reset(_, _, _) => ResetStep(s, e)
  }

  // ---------------------------------------------------------------- the service

  class ResetService {
    const directory: Directory
    var codes: map<Account, Entry<Code>>
    var tokens: map<Code, Entry<Account>>
    var verified: map<(Email, Code), Entry<string>>
    var passwords: map<Account, string>
    ghost var issued: map<Code, Account>
    ghost var changes: seq<Change>

    constructor (directory: Directory, passwords: map<Account, string>)
      ensures this.directory == directory && View() == Start(passwords)
    {
      this.directory, this.passwords := directory, passwords;
      codes, tokens, verified, issued, changes := map[], map[], map[], map[], [];
    }

    ghost function View(): State reads this { State(codes, tokens, verified, passwords, issued, changes) }

    method ForgotPassword(now: int, email: Email, allowed: bool, newCode: Code) returns (reply: Reply)
      modifies this
      ensures (View(), reply) == Step(directory, old(View()), Forgot(now, email, allowed, newCode))
      ensures reply == AccountNotFound <==> email !in directory
      ensures reply == TooManyEmails <==> email in directory && !allowed
      ensures reply == Done <==> email in directory && allowed
      ensures passwords == old(passwords) && verified == old(verified) && changes == old(changes)
      ensures reply != Done ==> unchanged(this)
      ensures reply == Done && Live(old(codes), directory[email], now) ==>
                var code := old(codes)[directory[email]].value;
                && codes == old(codes)[directory[email] := Entry(code, Some(now + 900_000_000_000))] && issued == old(issued)
                && (!Live(old(tokens), code, now) ==> tokens == old(tokens))
                && (Live(old(tokens), code, now) ==>
                      tokens == old(tokens)[code := Entry(old(tokens)[code].value, Some(now + 900_000_000_000))])
      ensures reply == Done && !Live(old(codes), directory[email], now) ==>
                && codes == old(codes)[directory[email] := Entry(newCode, Some(now + 900_000_000_000))]
                && tokens == old(tokens)[newCode := Entry(directory[email], Some(now + 900_000_000_000))]
                && issued == old(issued)[newCode := directory[email]]
    {
      if email !in directory { return AccountNotFound; }
      var account := directory[email];
      if !allowed { return TooManyEmails; }
      var cached := Get(codes, account, now);
      if cached.Some? {
        codes := Expire(codes, account, now, RESET_TTL);
        tokens := Expire(tokens, cached.value, now, RESET_TTL);
      } else {
        codes := SetFor(codes, account, newCode, now, RESET_TTL);
        tokens := SetFor(tokens, newCode, account, now, RESET_TTL);
        issued := issued[newCode := account];
      }
      return Done;
    }

    method VerifyResetPassword(now: int, email: Email, code: Option<Code>) returns (reply: Reply)
      modifies this
      ensures (View(), reply) == Step(directory, old(View()), Verify(now, email, code))
      ensures reply == MalformedCode <==> code == None
      ensures reply == AccountNotFound <==> code.Some? && email !in directory
      ensures reply == Done <==> code.Some? && email in directory && Get(old(tokens), code.value, now) == Some(directory[email])
      ensures reply != TooManyEmails && (reply == Done || unchanged(this))
      ensures reply == Done ==>
                && verified == old(verified)[(email, code.value) := Entry("1", Some(now + 900_000_000_000))]
                && tokens == old(tokens) - {code.value} && codes == old(codes) - {directory[email]}
                && passwords == old(passwords) && issued == old(issued) && changes == old(changes)
    {
      if code.None? { return MalformedCode; }
      if email !in directory { return AccountNotFound; }
      var account := directory[email];
      var owner := Get(tokens, code.value, now);
      if owner.None? { return NotMatchedOrExpired; }
      if owner.value != account { return NotMatchedOrExpired; }
      verified := SetFor(verified, (email, code.value), "1", now, RESET_TTL);
      tokens, codes := tokens - {code.value}, codes - {account};
      return Done;
    }

    method UpdatePassword(now: int, email: Email, code: Option<Code>, password: string) returns (reply: Reply)
      modifies this
      ensures (View(), reply) == Step(directory, old(View()), Update(now, email, code, password))
      ensures reply == MalformedCode <==> code == None
      ensures reply == AccountNotFound <==> code.Some? && email !in directory
      ensures reply == Done <==> code.Some? && email in directory && Live(old(verified), (email, code.value), now)
      ensures reply != TooManyEmails && (reply == Done || unchanged(this))
      ensures reply == Done ==>
                && passwords == old(passwords)[directory[email] := password]
                && verified == old(verified) - {(email, code.value)}
                && changes == old(changes) + [Change(code.value, directory[email], password)]
                && tokens == old(tokens) && codes == old(codes) && issued == old(issued)
    {
      if code.None? { return MalformedCode; }
      if email !in directory { return AccountNotFound; }
      var account := directory[email];
      if !Live(verified, (email, code.value), now) { return NotMatchedOrExpired; }
      passwords := passwords[account := password];
      changes := changes + [Change(code.value, account, password)];
      verified := verified - {(email, code.value)};
      return Done;
    }

    method ResetPassword(now: int, code: Option<Code>, password: string) returns (reply: Reply)
      modifies this
      ensures (View(), reply) == Step(directory, old(View()), Reset(now, code, password))
      ensures reply == MalformedCode <==> code == None
      ensures reply == Done <==> code.Some? && Live(old(tokens), code.value, now)
      ensures reply in {MalformedCode, Done, NotMatchedOrExpired} && (reply == Done || unchanged(this))
      ensures reply == Done ==>
                var account := old(tokens)[code.value].value;
                && passwords == old(passwords)[account := password] && changes == old(changes) + [Change(code.value, account, password)]
                && tokens == old(tokens) - {code.value} && codes == old(codes) - {account}
                && verified == old(verified) && issued == old(issued)
    {
      if code.None? { return MalformedCode; }
      var owner := Get(tokens, code.value, now);
      if owner.None? { return NotMatchedOrExpired; }
      passwords := passwords[owner.value := password];
      changes := changes + [Change(code.value, owner.value, password)];
      tokens, codes := tokens - {code.value}, codes - {owner.value};
      return Done;
    }
  }

  // ---------------------------------------------------------------- the invariant

  function Start(passwords: map<Account, string>): State { State(map[], map[], map[], passwords, map[], []) }

  /** A live code of an account and the live token of that code name each other and die together. */
  ghost predicate Paired(s: State, now: int) {
    && (forall a <- s.codes :: Live(s.codes, a, now) ==>
          var c := s.codes[a].value; Live(s.tokens, c, now) && s.tokens[c] == Entry(a, s.codes[a].expires))
    && (forall c <- s.tokens :: Live(s.tokens, c, now) ==>
          var a := s.tokens[c].value; Live(s.codes, a, now) && s.codes[a] == Entry(c, s.tokens[c].expires))
  }

  predicate Used(s: State, c: Code) { exists i :: 0 <= i < |s.changes| && s.changes[i].code == c }

  /** Every trace of a code leads to the account it was issued for, and a code is in one stage at a time. */
  ghost predicate OneStage(d: Directory, s: State) {
    && (forall a <- s.codes :: s.codes[a].value in s.issued)
    && (forall c <- s.tokens :: c in s.issued && s.tokens[c].value == s.issued[c] && !Used(s, c))
    && (forall k <- s.verified :: k.0 in d && k.1 in s.issued && d[k.0] == s.issued[k.1] && k.1 !in s.tokens && !Used(s, k.1))
    && (forall k, l | k in s.verified && l in s.verified && k.1 == l.1 :: k == l)
    && (forall i | 0 <= i < |s.changes| :: s.changes[i].code in s.issued && s.changes[i].account == s.issued[s.changes[i].code])
    && (forall i, j | 0 <= i < j < |s.changes| :: s.changes[i].code != s.changes[j].code)
  }

  /** New identifiers are unused ones. */
  predicate Legal(s: State, e: Event) { e.Forgot? ==> e.newCode !in s.issued }

  lemma ProlongKeepsPaired(s: State, a: Account, now: int)
    requires Paired(s, now) && Live(s.codes, a, now)
    ensures Paired(Prolong(s, a, now), now)
  {
  }

  lemma IssueKeepsPaired(s: State, a: Account, c: Code, now: int)
    requires Paired(s, now) && !Live(s.codes, a, now) && c !in s.tokens
    ensures Paired(Issue(s, a, c, now), now)
  {
  }

  lemma StepKeepsPaired(d: Directory, s: State, e: Event)
    requires Paired(s, e.now) && OneStage(d, s) && Legal(s, e)
    ensures Paired(Step(d, s, e).0, e.now)
  {
    match e
    case Forgot(now, email, allowed, newCode) =>
      if email in d && allowed {
        if Live(s.codes, d[email], now) { ProlongKeepsPaired(s, d[email], now); }
        else { IssueKeepsPaired(s, d[email], newCode, now); }
      }
    case Verify(_, _, _) =>
    case Update(_, _, _, _) =>
    case Reset(_, _, _) =>
  }

  lemma UsedAppend(s: State, c: Change, t: State)
    requires t.changes == s.changes + [c]
    ensures forall x :: Used(t, x) <==> Used(s, x) || x == c.code
  {
    forall x ensures Used(t, x) <==> Used(s, x) || x == c.code {
      if Used(s, x) {
        var i :| 0 <= i < |s.changes| && s.changes[i].code == x;
        assert t.changes[i].code == x;
      }
      if x == c.code { assert t.changes[|s.changes|].code == x; }
    }
  }

  lemma ProlongKeepsOneStage(d: Directory, s: State, a: Account, now: int)
    requires OneStage(d, s) && a in s.codes
    ensures OneStage(d, Prolong(s, a, now))
  {
    var t := Prolong(s, a, now);
    assert forall x :: Used(t, x) == Used(s, x);
  }

  lemma IssueKeepsOneStage(d: Directory, s: State, a: Account, c: Code, now: int)
    requires OneStage(d, s) && c !in s.issued
    ensures OneStage(d, Issue(s, a, c, now))
  {
    var t := Issue(s, a, c, now);
    assert forall x :: Used(t, x) == Used(s, x);
  }

  lemma ForgotKeepsOneStage(d: Directory, s: State, e: Event)
    requires e.Forgot? && OneStage(d, s) && Legal(s, e)
    ensures OneStage(d, ForgotStep(d, s, e).0)
  {
    if e.email in d && e.allowed {
      if Live(s.codes, d[e.email], e.now) { ProlongKeepsOneStage(d, s, d[e.email], e.now); }
      else { IssueKeepsOneStage(d, s, d[e.email], e.newCode, e.now); }
    }
  }

  lemma VerifyKeepsOneStage(d: Directory, s: State, e: Event)
    requires e.Verify? && OneStage(d, s)
    ensures OneStage(d, VerifyStep(d, s, e).0)
  {
    var t := VerifyStep(d, s, e).0;
    assert forall x :: Used(t, x) == Used(s, x);
  }

  lemma UpdateKeepsOneStage(d: Directory, s: State, e: Event)
    requires e.Update? && OneStage(d, s)
    ensures OneStage(d, UpdateStep(d, s, e).0)
  {
    var (t, reply) := UpdateStep(d, s, e);
    if reply == Done {
      UsedAppend(s, Change(e.code.value, d[e.email], e.password), t);
      forall i | 0 <= i < |s.changes| ensures s.changes[i].code != e.code.value {
        if s.changes[i].code == e.code.value { assert Used(s, e.code.value); }
      }
    }
  }

  lemma ResetKeepsOneStage(d: Directory, s: State, e: Event)
    requires e.Reset? && OneStage(d, s)
    ensures OneStage(d, ResetStep(s, e).0)
  {
    var (t, reply) := ResetStep(s, e);
    if reply == Done {
      UsedAppend(s, Change(e.code.value, s.tokens[e.code.value].value, e.password), t);
      forall i | 0 <= i < |s.changes| ensures s.changes[i].code != e.code.value {
        if s.changes[i].code == e.code.value { assert Used(s, e.code.value); }
      }
    }
  }

  // ---------------------------------------------------------------- whole runs

  function Run(d: Directory, passwords: map<Account, string>, events: seq<Event>): State {
    if events == [] then Start(passwords)
    else Step(d, Run(d, passwords, events[..|events| - 1]), events[|events| - 1]).0
  }

  /** Calls in the order they happen, each new code under an identifier never used before. */
  predicate Proper(d: Directory, passwords: map<Account, string>, events: seq<Event>) {
    events == [] ||
    var before, e := events[..|events| - 1], events[|events| - 1];
    && Proper(d, passwords, before) && Legal(Run(d, passwords, before), e)
    && (before != [] ==> before[|before| - 1].now <= e.now)
  }

  lemma PairedLater(s: State, now: int, later: int)
    requires Paired(s, now) && now <= later
    ensures Paired(s, later)
  {
  }

  /** At every instant from the latest call on, live codes and live tokens are mutually inverse and expire together. */
  lemma {:induction false} LiveKeysArePaired(d: Directory, passwords: map<Account, string>, events: seq<Event>, now: int)
    requires Proper(d, passwords, events) && (events != [] ==> events[|events| - 1].now <= now)
    ensures Paired(Run(d, passwords, events), now) && OneStage(d, Run(d, passwords, events))
  {
    if events != [] {
      var before, e := events[..|events| - 1], events[|events| - 1];
      LiveKeysArePaired(d, passwords, before, e.now);
      var s := Run(d, passwords, before);
      StepKeepsPaired(d, s, e);
      match e {
        case Forgot(_, _, _, _) => ForgotKeepsOneStage(d, s, e);
        case Verify(_, _, _) => VerifyKeepsOneStage(d, s, e);
        case Update(_, _, _, _) => UpdateKeepsOneStage(d, s, e);
        case Reset(_, _, _) => ResetKeepsOneStage(d, s, e);
      }
      PairedLater(Run(d, passwords, events), e.now, now);
    }
  }

  /** An account has at most one live code. */
  lemma OneLiveCodePerAccount(d: Directory, passwords: map<Account, string>, events: seq<Event>, now: int, b: Code, c: Code)
    requires Proper(d, passwords, events) && (events != [] ==> events[|events| - 1].now <= now)
    requires var s := Run(d, passwords, events);
             Live(s.tokens, b, now) && Live(s.tokens, c, now) && s.tokens[b].value == s.tokens[c].value
    ensures b == c
  {
    LiveKeysArePaired(d, passwords, events, now);
  }

  /**
   * Over every mix of the four calls, a code changes a password at most once, by either route, and only the
   * password of the account it was issued for.
   */
  lemma OneChangePerCode(d: Directory, passwords: map<Account, string>, events: seq<Event>)
    requires Proper(d, passwords, events)
    ensures var s := Run(d, passwords, events);
            && (forall i, j | 0 <= i < j < |s.changes| :: s.changes[i].code != s.changes[j].code)
            && (forall i | 0 <= i < |s.changes| :: s.changes[i].code in s.issued && s.changes[i].account == s.issued[s.changes[i].code])
  {
    LiveKeysArePaired(d, passwords, events, if events == [] then 0 else events[|events| - 1].now);
  }

  /** An account's password is the one set by its latest change, or the original one. */
  function LatestPassword(passwords: map<Account, string>, changes: seq<Change>): map<Account, string> {
    if changes == [] then passwords else
      var last := changes[|changes| - 1];
      LatestPassword(passwords, changes[..|changes| - 1])[last.account := last.password]
  }

  lemma StepRecordsItsChange(d: Directory, s: State, e: Event) returns (made: seq<Change>)
    ensures |made| <= 1 && Step(d, s, e).0.changes == s.changes + made
    ensures Step(d, s, e).0.passwords == if made == [] then s.passwords else s.passwords[made[0].account := made[0].password]
  {
    made := Step(d, s, e).0.changes[|s.changes|..];
  }

  /** Nothing but the recorded changes ever touches a password. */
  lemma {:induction false} PasswordsFollowChanges(d: Directory, passwords: map<Account, string>, events: seq<Event>)
    ensures Run(d, passwords, events).passwords == LatestPassword(passwords, Run(d, passwords, events).changes)
  {
    if events != [] {
      var before := events[..|events| - 1];
      PasswordsFollowChanges(d, passwords, before);
      var s := Run(d, passwords, before);
      var made := StepRecordsItsChange(d, s, events[|events| - 1]);
      if made == [] {
        assert s.changes + made == s.changes;
      } else {
        assert (s.changes + made)[..|s.changes|] == s.changes;
      }
    }
  }

  /** The change a call asks for when it answers Done: its password, for the account its code was issued to. */
  function AskedBy(d: Directory, s: State, e: Event): seq<Change> {
    if (e.Update? || e.Reset?) && e.code.Some? && e.code.value in s.issued && Step(d, s, e).1 == Done
    then [Change(e.code.value, s.issued[e.code.value], e.password)] else []
  }

  function Asked(d: Directory, passwords: map<Account, string>, events: seq<Event>): seq<Change> {
    if events == [] then [] else
      var before := events[..|events| - 1];
      Asked(d, passwords, before) + AskedBy(d, Run(d, passwords, before), events[|events| - 1])
  }

  lemma StepChangesAsAsked(d: Directory, s: State, e: Event)
    requires OneStage(d, s)
    ensures Step(d, s, e).0.changes == s.changes + AskedBy(d, s, e)
  {
    match e
    case Forgot(_, _, _, _) =>
    case Verify(_, _, _) =>
    case Update(_, _, _, _) => assert Step(d, s, e).1 == Done ==> (e.email, e.code.value) in s.verified;
    case Reset(_, _, _) => assert Step(d, s, e).1 == Done ==> e.code.value in s.tokens;
  }

  /** Over every run the passwords are the ones that the successful calls asked for, in their order, each for the account
      its code was issued to. */
  lemma {:induction false} PasswordsAreThoseAskedFor(d: Directory, passwords: map<Account, string>, events: seq<Event>)
    requires Proper(d, passwords, events)
    ensures Run(d, passwords, events).changes == Asked(d, passwords, events)
    ensures Run(d, passwords, events).passwords == LatestPassword(passwords, Asked(d, passwords, events))
    decreases |events|
  {
    PasswordsFollowChanges(d, passwords, events);
    if events != [] {
      var before, e := events[..|events| - 1], events[|events| - 1];
      PasswordsAreThoseAskedFor(d, passwords, before);
      LiveKeysArePaired(d, passwords, before, e.now);
      StepChangesAsAsked(d, Run(d, passwords, before), e);
    }
  }

  // ---------------------------------------------------------------- what a change leaves behind

  /** The code can still change a password at that instant, through its token or as a verified code. */
  ghost predicate Usable(s: State, c: Code, now: int) {
    Live(s.tokens, c, now) || exists k :: k in s.verified && k.1 == c && Live(s.verified, k, now)
  }

  lemma UpdateWithdraws(d: Directory, s: State, e: Event, c: Code, later: int)
    requires e.Update? && OneStage(d, s) && UpdateStep(d, s, e).1 == Done
    ensures Usable(UpdateStep(d, s, e).0, c, later) <==> Usable(s, c, later) && c != e.code.value
  {
    var t, used := UpdateStep(d, s, e).0, (e.email, e.code.value);
    if Usable(s, c, later) && c != e.code.value && !Live(s.tokens, c, later) {
      var k :| k in s.verified && k.1 == c && Live(s.verified, k, later);
      assert k in t.verified;
    }
    assert used in s.verified;
  }

  lemma ResetWithdraws(d: Directory, s: State, e: Event, c: Code, later: int)
    requires e.Reset? && OneStage(d, s) && ResetStep(s, e).1 == Done
    ensures Usable(ResetStep(s, e).0, c, later) <==> Usable(s, c, later) && c != e.code.value
  {
    assert e.code.value in s.tokens;
  }

  /** A password change withdraws the code it used and no other: every other usable code stays usable as long as before. */
  lemma ChangeWithdrawsOnlyItsCode(d: Directory, passwords: map<Account, string>, events: seq<Event>, e: Event, c: Code, later: int)
    requires Proper(d, passwords, events) && (e.Update? || e.Reset?) && Step(d, Run(d, passwords, events), e).1 == Done
    ensures Usable(Step(d, Run(d, passwords, events), e).0, c, later)
            <==> Usable(Run(d, passwords, events), c, later) && Some(c) != e.code
  {
    var s := Run(d, passwords, events);
    LiveKeysArePaired(d, passwords, events, if events == [] then 0 else events[|events| - 1].now);
    if e.Update? { UpdateWithdraws(d, s, e, c, later); } else { ResetWithdraws(d, s, e, c, later); }
  }

  /** Event i exchanged a code for a verified key. */
  predicate VerifiesAt(d: Directory, passwords: map<Account, string>, events: seq<Event>, i: nat) {
    i < |events| && events[i].Verify? && Step(d, Run(d, passwords, events[..i]), events[i]).1 == Done
  }

  predicate Uses(e: Event, v: Event)
    requires v.Verify?
  {
    e.Update? && e.email == v.email && e.code == v.code && e.now < v.now + RESET_TTL
  }

  /** Event i is a verification whose key one of the events after it used. */
  predicate UsedAfter(events: seq<Event>, i: nat)
    requires i < |events| && events[i].Verify?
  {
    i + 1 < |events| && (UsedAfter(events[..|events| - 1], i) || Uses(events[|events| - 1], events[i]))
  }

  lemma UsedAfterAppend(events: seq<Event>, e: Event, i: nat)
    requires i < |events| && events[i].Verify?
    ensures UsedAfter(events + [e], i) <==> UsedAfter(events, i) || Uses(e, events[i])
  {
    assert (events + [e])[..|events|] == events;
  }

  /** The key that a verification stored: there until it is used, under a code that cannot be verified again. */
  predicate KeyOf(d: Directory, s: State, v: Event, used: bool)
    requires v.Verify?
  {
    v.code.Some? && v.email in d && v.code.value in s.issued && v.code.value !in s.tokens
    && ((v.email, v.code.value) in s.verified <==> !used)
    && (!used ==> s.verified[(v.email, v.code.value)].expires == Some(v.now + RESET_TTL))
  }

  lemma VerifiedStep(d: Directory, s: State, e: Event, v: Event, used: bool)
    requires v.Verify? && KeyOf(d, s, v, used) && Legal(s, e)
    ensures KeyOf(d, Step(d, s, e).0, v, used || Uses(e, v))
  {
    match e
    case Forgot(_, _, _, _) =>
    case Verify(_, _, _) => assert e.code == v.code ==> Step(d, s, e).1 != Done;
    case Update(_, _, _, _) =>
    case Reset(_, _, _) =>
  }

  lemma VerificationStores(d: Directory, s: State, v: Event)
    requires v.Verify? && OneStage(d, s) && Step(d, s, v).1 == Done
    ensures KeyOf(d, Step(d, s, v).0, v, false)
  {
    assert v.code.value in s.tokens;
  }

  lemma RunAppend(d: Directory, passwords: map<Account, string>, events: seq<Event>, e: Event)
    ensures Run(d, passwords, events + [e]) == Step(d, Run(d, passwords, events), e).0
  {
    assert (events + [e])[..|events|] == events;
  }

  lemma VerifiedKeyNext(d: Directory, passwords: map<Account, string>, before: seq<Event>, e: Event, i: nat)
    requires i < |before| && before[i].Verify? && Legal(Run(d, passwords, before), e)
    requires KeyOf(d, Run(d, passwords, before), before[i], UsedAfter(before, i))
    ensures KeyOf(d, Run(d, passwords, before + [e]), before[i], UsedAfter(before + [e], i))
  {
    UsedAfterAppend(before, e, i);
    RunAppend(d, passwords, before, e);
    VerifiedStep(d, Run(d, passwords, before), e, before[i], UsedAfter(before, i));
  }

  lemma VerifiedKeyFirst(d: Directory, passwords: map<Account, string>, before: seq<Event>, v: Event)
    requires Proper(d, passwords, before) && (before != [] ==> before[|before| - 1].now <= v.now)
    requires v.Verify? && Step(d, Run(d, passwords, before), v).1 == Done
    ensures KeyOf(d, Run(d, passwords, before + [v]), v, false)
  {
    LiveKeysArePaired(d, passwords, before, v.now);
    RunAppend(d, passwords, before, v);
    VerificationStores(d, Run(d, passwords, before), v);
  }

  lemma {:induction false} ProperTake(d: Directory, passwords: map<Account, string>, events: seq<Event>, i: nat)
    requires Proper(d, passwords, events) && i < |events|
    ensures Proper(d, passwords, events[..i]) && Legal(Run(d, passwords, events[..i]), events[i])
    ensures i > 0 ==> events[i - 1].now <= events[i].now
    decreases |events|
  {
    var before := events[..|events| - 1];
    if i < |before| {
      assert before[..i] == events[..i] && before[i] == events[i];
      ProperTake(d, passwords, before, i);
    } else {
      assert events[..i] == before;
    }
  }

  lemma {:induction false} VerifiedKeyAt(d: Directory, passwords: map<Account, string>, events: seq<Event>, i: nat, n: nat)
    requires Proper(d, passwords, events) && i < n <= |events| && events[i].Verify?
    requires KeyOf(d, Run(d, passwords, events[..i + 1]), events[i], false)
    ensures KeyOf(d, Run(d, passwords, events[..n]), events[i], UsedAfter(events[..n], i))
    decreases n
  {
    if n > i + 1 {
      VerifiedKeyAt(d, passwords, events, i, n - 1);
      ProperTake(d, passwords, events, n - 1);
      assert events[..n] == events[..n - 1] + [events[n - 1]];
      VerifiedKeyNext(d, passwords, events[..n - 1], events[n - 1], i);
    }
  }

  lemma VerificationMakesKey(d: Directory, passwords: map<Account, string>, events: seq<Event>, i: nat)
    requires Proper(d, passwords, events) && VerifiesAt(d, passwords, events, i)
    ensures KeyOf(d, Run(d, passwords, events[..i + 1]), events[i], false)
  {
    ProperTake(d, passwords, events, i);
    assert events[..i + 1] == events[..i] + [events[i]];
    VerifiedKeyFirst(d, passwords, events[..i], events[i]);
  }

  /** A verified code can be used by the same address at an instant exactly if that is less than 15 minutes after
      its verification and it has not been used by then, whatever other codes have changed the password meanwhile. */
  lemma VerifiedCodeLivesExactly(d: Directory, passwords: map<Account, string>, events: seq<Event>, i: nat, now: int)
    requires Proper(d, passwords, events) && VerifiesAt(d, passwords, events, i)
    ensures events[i].code.Some?
    ensures Live(Run(d, passwords, events).verified, (events[i].email, events[i].code.value), now)
            <==> now < events[i].now + RESET_TTL && !UsedAfter(events, i)
  {
    VerificationMakesKey(d, passwords, events, i);
    LiveIfUnused(d, passwords, events, i, now);
  }

  lemma LiveIfUnused(d: Directory, passwords: map<Account, string>, events: seq<Event>, i: nat, now: int)
    requires Proper(d, passwords, events) && i < |events| && events[i].Verify?
    requires KeyOf(d, Run(d, passwords, events[..i + 1]), events[i], false)
    ensures events[i].code.Some?
    ensures Live(Run(d, passwords, events).verified, (events[i].email, events[i].code.value), now)
            <==> now < events[i].now + RESET_TTL && !UsedAfter(events, i)
  {
    assert events[..|events|] == events;
    VerifiedKeyAt(d, passwords, events, i, |events|);
  }

  /** Issuing a code and verifying it at once leaves its verified key and nothing else. */
  lemma IssueAndVerify(d: Directory, s: State, email: Email, c: Code)
    requires email in d && d[email] !in s.codes
    ensures var t := Step(d, Step(d, s, Forgot(0, email, true, c)).0, Verify(0, email, Some(c))).0;
            && t.verified == s.verified[(email, c) := Entry("1", Some(RESET_TTL))] && t.codes == s.codes
            && t.passwords == s.passwords && t.changes == s.changes
  {
    var mid := Step(d, s, Forgot(0, email, true, c)).0;
    assert Live(mid.tokens, c, 0) && mid.tokens[c].value == d[email];
    assert s.codes[d[email] := Entry(c, Some(RESET_TTL))] - {d[email]} == s.codes;
  }

  lemma UseVerified(d: Directory, s: State, email: Email, c: Code, password: string)
    requires email in d && (email, c) in s.verified && s.verified[(email, c)].expires == Some(RESET_TTL)
    ensures var t := Step(d, s, Update(0, email, Some(c), password)).0;
            && t.verified == s.verified - {(email, c)} && t.passwords == s.passwords[d[email] := password]
            && t.changes == s.changes + [Change(c, d[email], password)]
  {
  }

  /** Two codes are verified one after the other; each of them then changes the password, the older one last. */
  lemma OlderCodeChangesLast(d: Directory, passwords: map<Account, string>, email: Email, b: Code, c: Code, x: string, y: string)
    returns (events: seq<Event>)
    requires email in d && b != c
    ensures events == [Forgot(0, email, true, b)] + [Verify(0, email, Some(b))] + [Forgot(0, email, true, c)]
                      + [Verify(0, email, Some(c))] + [Update(0, email, Some(c), x)] + [Update(0, email, Some(b), y)]
    ensures var s := Run(d, passwords, events);
            s.changes == [Change(c, d[email], x), Change(b, d[email], y)] && s.passwords == passwords[d[email] := y]
  {
    var e1, e2, e3 := Forgot(0, email, true, b), Verify(0, email, Some(b)), Forgot(0, email, true, c);
    var e4, e5, e6 := Verify(0, email, Some(c)), Update(0, email, Some(c), x), Update(0, email, Some(b), y);
    events := [e1] + [e2] + [e3] + [e4] + [e5] + [e6];
    RunOfSix(d, passwords, e1, e2, e3, e4, e5, e6);
    OlderCodeStates(d, Start(passwords), email, b, c, x, y);
    assert [Change(c, d[email], x)] + [Change(b, d[email], y)] == [Change(c, d[email], x), Change(b, d[email], y)];
    assert passwords[d[email] := x][d[email] := y] == passwords[d[email] := y];
  }

  lemma RunOfSix(d: Directory, passwords: map<Account, string>, e1: Event, e2: Event, e3: Event, e4: Event, e5: Event, e6: Event)
    ensures Run(d, passwords, [e1] + [e2] + [e3] + [e4] + [e5] + [e6])
            == Step(d, Step(d, Step(d, Step(d, Step(d, Step(d, Start(passwords), e1).0, e2).0, e3).0, e4).0, e5).0, e6).0
  {
    RunAppend(d, passwords, [], e1);
    assert [] + [e1] == [e1];
    RunAppend(d, passwords, [e1], e2);
    RunAppend(d, passwords, [e1] + [e2], e3);
    RunAppend(d, passwords, [e1] + [e2] + [e3], e4);
    RunAppend(d, passwords, [e1] + [e2] + [e3] + [e4], e5);
    RunAppend(d, passwords, [e1] + [e2] + [e3] + [e4] + [e5], e6);
  }

  lemma OlderCodeStates(d: Directory, s: State, email: Email, b: Code, c: Code, x: string, y: string)
    requires email in d && b != c && d[email] !in s.codes
    ensures var s2 := Step(d, Step(d, s, Forgot(0, email, true, b)).0, Verify(0, email, Some(b))).0;
            var s4 := Step(d, Step(d, s2, Forgot(0, email, true, c)).0, Verify(0, email, Some(c))).0;
            var s6 := Step(d, Step(d, s4, Update(0, email, Some(c), x)).0, Update(0, email, Some(b), y)).0;
            && s6.changes == s.changes + [Change(c, d[email], x)] + [Change(b, d[email], y)]
            && s6.passwords == s.passwords[d[email] := x][d[email] := y]
  {
    IssueAndVerify(d, s, email, b);
    var s2 := Step(d, Step(d, s, Forgot(0, email, true, b)).0, Verify(0, email, Some(b))).0;
    IssueAndVerify(d, s2, email, c);
    var s4 := Step(d, Step(d, s2, Forgot(0, email, true, c)).0, Verify(0, email, Some(c))).0;
    UseVerified(d, s4, email, c, x);
    UseVerified(d, Step(d, s4, Update(0, email, Some(c), x)).0, email, b, y);
  }
}
