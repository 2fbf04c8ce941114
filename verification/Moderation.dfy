/** Staff: roles as grants with an author, sanctions, and the log that accounts for both. */
module Moderation {
  import opened Basics
  import SqlSplit

  datatype Role = Ordinary | Admin | HeadAdmin

  /** Who took something back, and when. */
  datatype Stamp = Stamp(who: Id, at: int)

  datatype Grant = Grant(account: Id, role: Role, author: Option<Id>, at: int, revoked: Option<Stamp>)

  datatype Kind = Ban | Mute | Timeout

  /** A sanction without an end is permanent. */
  datatype Sanction = Sanction(id: Id, account: Id, kind: Kind, reason: string, actor: Id, at: int, until: Option<int>,
                               lifted: Option<Stamp>)

  datatype Action = Bootstrapped | Granted | Revoked | Applied(kind: Kind) | Lifted | Elsewhere(what: string)

  datatype LogLine = LogLine(actor: Id, action: Action, subject: Id, at: int)

  datatype Office = Office(grants: seq<Grant>, sanctions: seq<Sanction>, log: seq<LogLine>)

  datatype StaffError =
    | NotHeadAdmin | NotStaff | AlreadyHeld | NoSuchGrant | HeadAdminSet | SelfDemotion | CannotDemote | ReasonMissing
    | BadKind | NoSanction | Unavailable

  const MAX_REASON: nat := 300

  predicate IsStaff(r: Role) {
    r == Admin || r == HeadAdmin
  }

  /** What somebody is, told from their grants that stand; head admin outranks admin. */
  function RoleIn(grants: seq<Grant>, account: Id): Role {
    if grants == [] then Ordinary
    else
      var front, g := RoleIn(grants[..|grants| - 1], account), grants[|grants| - 1];
      if g.account != account || g.revoked.Some? then front
      else if g.role == HeadAdmin then HeadAdmin
      else if front == Ordinary then g.role else front
  }

  predicate StandingHead(g: Grant) {
    g.role == HeadAdmin && g.revoked.None?
  }

  /** The first head admin whose grant stands, or nobody. */
  function HeadOf(grants: seq<Grant>): Id {
    if grants == [] then NOBODY
    else if StandingHead(grants[0]) then grants[0].account
    else HeadOf(grants[1..])
  }

  predicate Withdrawable(g: Grant, account: Id) {
    g.account == account && g.role == Admin && g.revoked.None?
  }

  function Withdrawn(grants: seq<Grant>, account: Id, s: Stamp): (r: seq<Grant>)
    ensures |r| == |grants|
  {
    seq(|grants|, i requires 0 <= i < |grants| =>
      if Withdrawable(grants[i], account) then grants[i].(revoked := Some(s)) else grants[i])
  }

  predicate HoldsAdmin(grants: seq<Grant>, account: Id) {
    exists i :: 0 <= i < |grants| && Withdrawable(grants[i], account)
  }

  /** Nobody touches the head admin, and only the head admin touches an admin; anybody may act against themselves. */
  predicate CanActAgainst(grants: seq<Grant>, actor: Id, target: Id) {
    || actor == target
    || RoleIn(grants, target) == Ordinary
    || (RoleIn(grants, target) == Admin && RoleIn(grants, actor) == HeadAdmin)
  }

  function Shortened(reason: string): string {
    if |reason| > MAX_REASON then reason[..MAX_REASON] else reason
  }

  predicate LiftableAt(sanctions: seq<Sanction>, i: int, id: Id) {
    0 <= i < |sanctions| && sanctions[i].id == id && sanctions[i].lifted.None?
  }

  /** The place of a sanction that is not lifted, or past the end. */
  function LiftableIn(sanctions: seq<Sanction>, id: Id): (i: nat)
    ensures i <= |sanctions| && (i < |sanctions| ==> LiftableAt(sanctions, i, id))
    ensures i == |sanctions| ==> forall j :: !LiftableAt(sanctions, j, id)
    ensures forall j :: 0 <= j < i ==> !LiftableAt(sanctions, j, id)
  {
    if sanctions == [] then 0
    else if sanctions[0].id == id && sanctions[0].lifted.None? then 0
    else
      var i := LiftableIn(sanctions[1..], id);
      assert forall j :: LiftableAt(sanctions, j, id) ==> LiftableAt(sanctions[1..], j - 1, id);
      1 + i
  }

  datatype Op =
    | Bootstrap(account: Id)
    | GrantAdmin(actor: Id, target: Id)
    | RevokeAdmin(actor: Id, target: Id)
    | Punish(actor: Id, target: Id, kind: Option<Kind>, reason: string, length: int, id: Id)
    | Lift(actor: Id, id: Id)
    | Record(actor: Id, what: string, subject: Id)

  function Logged(o: Office, line: LogLine): Office {
    o.(log := o.log + [line])
  }

  /** Which write of a call fails: none, the row's or stamp's, or the log line's. These are separate statements. */
  datatype Fault = Sound | RowLost | LineLost

  /** A row written and then its log line: a line that fails leaves the row. */
  function Written(o: Office, rowed: Office, line: LogLine, fault: Fault): (Office, Option<StaffError>) {
    match fault
    case Sound => (Logged(rowed, line), None)
    case RowLost => (o, Some(Unavailable))
    case LineLost => (rowed, Some(Unavailable))
  }

  function BootstrapSpec(o: Office, account: Id, now: int, fault: Fault): (Office, Option<StaffError>) {
    var head := HeadOf(o.grants);
    if head != NOBODY then (o, if head == account then None else Some(HeadAdminSet))
    else
      Written(o, o.(grants := o.grants + [Grant(account, HeadAdmin, None, now, None)]),
              LogLine(account, Bootstrapped, account, now), fault)
  }

  function GrantSpec(o: Office, actor: Id, target: Id, now: int, fault: Fault): (Office, Option<StaffError>) {
    if RoleIn(o.grants, actor) != HeadAdmin then (o, Some(NotHeadAdmin))
    else if IsStaff(RoleIn(o.grants, target)) then (o, Some(AlreadyHeld))
    else
      Written(o, o.(grants := o.grants + [Grant(target, Admin, Some(actor), now, None)]),
              LogLine(actor, Granted, target, now), fault)
  }

  function RevokeSpec(o: Office, actor: Id, target: Id, now: int, fault: Fault): (Office, Option<StaffError>) {
    if RoleIn(o.grants, actor) != HeadAdmin then (o, Some(NotHeadAdmin))
    else if actor == target then (o, Some(SelfDemotion))
    else if fault == RowLost then (o, Some(Unavailable))
    else if !HoldsAdmin(o.grants, target) then
      (o, Some(if RoleIn(o.grants, target) == HeadAdmin then CannotDemote else NoSuchGrant))
    else
      Written(o, o.(grants := Withdrawn(o.grants, target, Stamp(actor, now))),
              LogLine(actor, Revoked, target, now), fault)
  }

  function PunishSpec(o: Office, actor: Id, target: Id, kind: Option<Kind>, reason: string, length: int, id: Id,
                      now: int, fault: Fault): (Office, Option<StaffError>)
  {
    if !IsStaff(RoleIn(o.grants, actor)) then (o, Some(NotStaff))
    else if kind.None? then (o, Some(BadKind))
    else if SqlSplit.Trim(reason) == "" then (o, Some(ReasonMissing))
    else if !CanActAgainst(o.grants, actor, target) then (o, Some(NotHeadAdmin))
    else
      var row := Sanction(id, target, kind.value, Shortened(SqlSplit.Trim(reason)), actor, now,
                          if length > 0 then Some(now + length) else None, None);
      Written(o, o.(sanctions := o.sanctions + [row]), LogLine(actor, Applied(kind.value), target, now), fault)
  }

  function LiftSpec(o: Office, actor: Id, id: Id, now: int, fault: Fault): (Office, Option<StaffError>) {
    var i := LiftableIn(o.sanctions, id);
    if !IsStaff(RoleIn(o.grants, actor)) then (o, Some(NotStaff))
    else if i == |o.sanctions| then (o, Some(NoSanction))
    else
      var row := o.sanctions[i];
      Written(o, o.(sanctions := o.sanctions[i := row.(lifted := Some(Stamp(actor, now)))]),
              LogLine(actor, Lifted, row.account, now), fault)
  }

  /** An action taken elsewhere has no row here, only its line. */
  function RecordSpec(o: Office, actor: Id, what: string, subject: Id, now: int, fault: Fault)
    : (Office, Option<StaffError>)
  {
    if !IsStaff(RoleIn(o.grants, actor)) then (o, Some(NotStaff))
    else if fault != Sound then (o, Some(Unavailable))
    else (Logged(o, LogLine(actor, Elsewhere(what), subject, now)), None)
  }

  function Apply(o: Office, op: Op, now: int, fault: Fault): (Office, Option<StaffError>) {
    match op
    case Bootstrap(account) => BootstrapSpec(o, account, now, fault)
    case GrantAdmin(actor, target) => GrantSpec(o, actor, target, now, fault)
    case RevokeAdmin(actor, target) => RevokeSpec(o, actor, target, now, fault)
    case Punish(actor, target, kind, reason, length, id) =>
      PunishSpec(o, actor, target, kind, reason, length, id, now, fault)
    case Lift(actor, id) => LiftSpec(o, actor, id, now, fault)
    case Record(actor, what, subject) => RecordSpec(o, actor, what, subject, now, fault)
  }

  class Store {
    var grants: seq<Grant>
    var sanctions: seq<Sanction>
    var log: seq<LogLine>

    ghost function View(): Office
      reads this
    {
      Office(grants, sanctions, log)
    }

    constructor ()
      ensures View() == Office([], [], [])
    {
      grants, sanctions, log := [], [], [];
    }

    method RoleOf(account: Id) returns (role: Role)
      ensures role == RoleIn(grants, account)
    {
      role := Ordinary;
      for i := 0 to |grants|
        invariant role == RoleIn(grants[..i], account)
      {
        assert grants[..i + 1][..i] == grants[..i];
        if grants[i].account == account && grants[i].revoked.None? {
          if grants[i].role == HeadAdmin {
            role := HeadAdmin;
          } else if role == Ordinary {
            role := grants[i].role;
          }
        }
      }
      assert grants[..|grants|] == grants;
    }

    method BootstrapHeadAdmin(account: Id, now: int, fault: Fault) returns (error: Option<StaffError>)
      modifies this
      ensures (View(), error) == BootstrapSpec(old(View()), account, now, fault)
    {
      var existing := HeadOf(grants);
      if existing != NOBODY {
        return if existing == account then None else Some(HeadAdminSet);
      }
      if fault == RowLost {
        return Some(Unavailable);
      }
      grants := grants + [Grant(account, HeadAdmin, None, now, None)];
      if fault == LineLost {
        return Some(Unavailable);
      }
      log := log + [LogLine(account, Bootstrapped, account, now)];
      error := None;
    }

    method GrantAdmin(actor: Id, target: Id, now: int, fault: Fault) returns (error: Option<StaffError>)
      modifies this
      ensures (View(), error) == GrantSpec(old(View()), actor, target, now, fault)
    {
      var role := RoleOf(actor);
      if role != HeadAdmin {
        return Some(NotHeadAdmin);
      }
      var current := RoleOf(target);
      if IsStaff(current) {
        return Some(AlreadyHeld);
      }
      if fault == RowLost {
        return Some(Unavailable);
      }
      grants := grants + [Grant(target, Admin, Some(actor), now, None)];
      if fault == LineLost {
        return Some(Unavailable);
      }
      log := log + [LogLine(actor, Granted, target, now)];
      error := None;
    }

    /** Stamps every standing admin grant of an account, and says how many there were. */
    method Withdraw(account: Id, s: Stamp) returns (n: nat)
      modifies this`grants
      ensures grants == Withdrawn(old(grants), account, s)
      ensures n > 0 <==> HoldsAdmin(old(grants), account)
    {
      n := 0;
      var was := grants;
      for i := 0 to |grants|
        invariant |grants| == |was| && grants[i..] == was[i..] && grants[..i] == Withdrawn(was, account, s)[..i]
        invariant n > 0 <==> exists j :: 0 <= j < i && Withdrawable(was[j], account)
      {
        assert grants[i] == grants[i..][0] == was[i];
        if Withdrawable(grants[i], account) {
          grants := grants[i := grants[i].(revoked := Some(s))];
          n := n + 1;
        }
      }
    }

    method RevokeAdmin(actor: Id, target: Id, now: int, fault: Fault) returns (error: Option<StaffError>)
      modifies this
      ensures (View(), error) == RevokeSpec(old(View()), actor, target, now, fault)
    {
      var role := RoleOf(actor);
      if role != HeadAdmin {
        return Some(NotHeadAdmin);
      }
      if actor == target {
        return Some(SelfDemotion);
      }
      if fault == RowLost {
        return Some(Unavailable);
      }
      WithdrawnNothing(grants, target, Stamp(actor, now));
      var n := Withdraw(target, Stamp(actor, now));
      if n == 0 {
        var theirs := RoleOf(target);
        return Some(if theirs == HeadAdmin then CannotDemote else NoSuchGrant);
      }
      if fault == LineLost {
        return Some(Unavailable);
      }
      log := log + [LogLine(actor, Revoked, target, now)];
      error := None;
    }

    method MayActAgainst(actor: Id, target: Id) returns (yes: bool)
      ensures yes == CanActAgainst(grants, actor, target)
    {
      if actor == target {
        return true;
      }
      var theirs := RoleOf(target);
      if theirs == HeadAdmin {
        return false;
      }
      if theirs == Admin {
        var role := RoleOf(actor);
        return role == HeadAdmin;
      }
      yes := true;
    }

    method Punish(actor: Id, target: Id, kind: Option<Kind>, reason: string, length: int, id: Id, now: int,
        fault: Fault)
      returns (error: Option<StaffError>)
      modifies this
      ensures (View(), error) == PunishSpec(old(View()), actor, target, kind, reason, length, id, now, fault)
    {
      var role := RoleOf(actor);
      if !IsStaff(role) {
        return Some(NotStaff);
      }
      if kind.None? {
        return Some(BadKind);
      }
      var why := SqlSplit.Trim(reason);
      if why == "" {
        return Some(ReasonMissing);
      }
      var allowed := MayActAgainst(actor, target);
      if !allowed {
        return Some(NotHeadAdmin);
      }
      var until := if length > 0 then Some(now + length) else None;
      if fault == RowLost {
        return Some(Unavailable);
      }
      sanctions := sanctions + [Sanction(id, target, kind.value, Shortened(why), actor, now, until, None)];
      if fault == LineLost {
        return Some(Unavailable);
      }
      log := log + [LogLine(actor, Applied(kind.value), target, now)];
      error := None;
    }

    method Lift(actor: Id, id: Id, now: int, fault: Fault) returns (error: Option<StaffError>)
      modifies this
      ensures (View(), error) == LiftSpec(old(View()), actor, id, now, fault)
    {
      var role := RoleOf(actor);
      if !IsStaff(role) {
        return Some(NotStaff);
      }
      var i := LiftableIn(sanctions, id);
      if i == |sanctions| {
        return Some(NoSanction);
      }
      var row := sanctions[i];
      if fault == RowLost {
        return Some(Unavailable);
      }
      sanctions := sanctions[i := row.(lifted := Some(Stamp(actor, now)))];
      if fault == LineLost {
        return Some(Unavailable);
      }
      log := log + [LogLine(actor, Lifted, row.account, now)];
      error := None;
    }

    method Record(actor: Id, what: string, subject: Id, now: int, fault: Fault) returns (error: Option<StaffError>)
      modifies this`log
      ensures (View(), error) == RecordSpec(old(View()), actor, what, subject, now, fault)
    {
      var role := RoleOf(actor);
      if !IsStaff(role) {
        return Some(NotStaff);
      }
      if fault != Sound {
        return Some(Unavailable);
      }
      log := log + [LogLine(actor, Elsewhere(what), subject, now)];
      error := None;
    }

    /** What somebody is barred from: a loop over what is in force. */
    method Restrictions(account: Id, now: int) returns (out: Restriction)
      ensures out == RestrictionOf(sanctions, account, now)
    {
      var banned, muted, timeout, permanent := false, false, false, false;
      var latest: Option<int> := None;
      for i := 0 to |sanctions|
        invariant Tally(banned, muted, timeout, permanent, latest) == TallyOf(sanctions[..i], account, now)
      {
        assert sanctions[..i + 1][..i] == sanctions[..i];
        var one := sanctions[i];
        if one.account == account && InForce(one, now) {
          match one.kind {
            case Ban => banned := true;
            case Mute => muted := true;
            case Timeout => timeout := true;
          }
          if one.until.None? {
            permanent := true;
          } else if latest.None? || one.until.value > latest.value {
            latest := one.until;
          }
        }
      }
      assert sanctions[..|sanctions|] == sanctions;
      out := Restriction(banned, muted, timeout, if permanent then None else latest);
    }
  }

  lemma WithdrawnNothing(grants: seq<Grant>, account: Id, s: Stamp)
    ensures !HoldsAdmin(grants, account) ==> Withdrawn(grants, account, s) == grants
  {
  }

  predicate InForce(s: Sanction, now: int) {
    s.lifted.None? && (s.until.None? || now < s.until.value)
  }

  datatype Restriction = Restriction(banned: bool, muted: bool, timeout: bool, until: Option<int>)

  datatype Tally = Tally(banned: bool, muted: bool, timeout: bool, permanent: bool, latest: Option<int>)

  function Later(a: Option<int>, b: int): Option<int> {
    if a.None? || b > a.value then Some(b) else a
  }

  function TallyOf(sanctions: seq<Sanction>, account: Id, now: int): Tally {
    if sanctions == [] then Tally(false, false, false, false, None)
    else
      var t, one := TallyOf(sanctions[..|sanctions| - 1], account, now), sanctions[|sanctions| - 1];
      if one.account != account || !InForce(one, now) then t
      else
        Tally(t.banned || one.kind == Ban, t.muted || one.kind == Mute, t.timeout || one.kind == Timeout,
              t.permanent || one.until.None?,
              if one.until.Some? then Later(t.latest, one.until.value) else t.latest)
  }

  function RestrictionOf(sanctions: seq<Sanction>, account: Id, now: int): Restriction {
    var t := TallyOf(sanctions, account, now);
    Restriction(t.banned, t.muted, t.timeout, if t.permanent then None else t.latest)
  }

  /** A sanction of a kind in force against somebody. */
  predicate Bears(s: Sanction, account: Id, now: int, kind: Kind) {
    s.account == account && s.kind == kind && InForce(s, now)
  }

  /** Somebody is under at least one sanction of a kind. */
  predicate Under(sanctions: seq<Sanction>, account: Id, now: int, kind: Kind) {
    exists i :: 0 <= i < |sanctions| && Bears(sanctions[i], account, now, kind)
  }

  predicate UnderAny(sanctions: seq<Sanction>, account: Id, now: int) {
    Under(sanctions, account, now, Ban) || Under(sanctions, account, now, Mute)
        || Under(sanctions, account, now, Timeout)
  }

  lemma UnderOneMore(sanctions: seq<Sanction>, account: Id, now: int, kind: Kind)
    requires sanctions != []
    ensures Under(sanctions, account, now, kind) <==>
              || Under(sanctions[..|sanctions| - 1], account, now, kind)
              || Bears(sanctions[|sanctions| - 1], account, now, kind)
  {
    var front := sanctions[..|sanctions| - 1];
    if i :| 0 <= i < |front| && Bears(front[i], account, now, kind) {
      assert sanctions[i] == front[i];
    }
    if i :| 0 <= i < |sanctions| && Bears(sanctions[i], account, now, kind) {
      assert i < |front| ==> front[i] == sanctions[i];
    }
  }

  /** Each of the three answers is exactly whether a sanction of that kind is in force. */
  lemma {:induction false} RestrictionsExactly(sanctions: seq<Sanction>, account: Id, now: int)
    ensures var r := RestrictionOf(sanctions, account, now);
            && (r.banned <==> Under(sanctions, account, now, Ban))
            && (r.muted <==> Under(sanctions, account, now, Mute))
            && (r.timeout <==> Under(sanctions, account, now, Timeout))
  {
    if sanctions != [] {
      RestrictionsExactly(sanctions[..|sanctions| - 1], account, now);
      UnderOneMore(sanctions, account, now, Ban);
      UnderOneMore(sanctions, account, now, Mute);
      UnderOneMore(sanctions, account, now, Timeout);
    }
  }

  lemma {:induction false} TallyLater(sanctions: seq<Sanction>, account: Id, now: int, later: int)
    requires now <= later
    ensures var t, u := TallyOf(sanctions, account, now), TallyOf(sanctions, account, later);
            && t.permanent == u.permanent
            && (t.latest.Some? ==> t.latest.value > now)
            && u.latest == (if t.latest.Some? && later < t.latest.value then t.latest else None)
            && ((t.banned || t.muted || t.timeout) <==> t.permanent || t.latest.Some?)
  {
    if sanctions != [] {
      TallyLater(sanctions[..|sanctions| - 1], account, now, later);
    }
  }

  /** The end given is the end: with nothing done meanwhile, somebody under sanctions is under one at a later moment
      exactly when no end was given or that end has not come. */
  lemma EndsWhenItSays(sanctions: seq<Sanction>, account: Id, now: int, later: int)
    requires now <= later && UnderAny(sanctions, account, now)
    ensures var r := RestrictionOf(sanctions, account, now);
            UnderAny(sanctions, account, later) <==> r.until.None? || later < r.until.value
  {
    RestrictionsExactly(sanctions, account, now);
    RestrictionsExactly(sanctions, account, later);
    TallyLater(sanctions, account, now, later);
    TallyLater(sanctions, account, later, later);
  }
}
