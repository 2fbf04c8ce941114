/** What each call of the staff does to roles, sanctions and the log, told from the call and what there was before. */
module ModerationCalls {
  import opened Basics
  import opened Moderation
  import opened ModerationRuns
  import SqlSplit

  /** There is a head admin, and it is `account`. */
  predicate IsHead(o: Office, account: Id) {
    o.grants != [] && account == HeadOf(o.grants)
  }

  predicate OnStaff(o: Office, account: Id) {
    IsHead(o, account) || HoldsAdmin(o.grants, account)
  }

  lemma GrantMakes(o: Office, actor: Id, target: Id, now: int, fault: Fault)
    requires GrantsOk(o.grants)
    ensures RoleIn(GrantSpec(o, actor, target, now, fault).0.grants, target) ==
            if IsHead(o, actor) && !OnStaff(o, target) && fault != RowLost then Admin else RoleIn(o.grants, target)
  {
    RoleExactly(o.grants, actor);
    RoleExactly(o.grants, target);
  }

  lemma RevokeUnmakes(o: Office, actor: Id, target: Id, now: int, fault: Fault)
    requires GrantsOk(o.grants)
    ensures RoleIn(RevokeSpec(o, actor, target, now, fault).0.grants, target) ==
            if IsHead(o, actor) && actor != target && HoldsAdmin(o.grants, target) && fault != RowLost then Ordinary
            else RoleIn(o.grants, target)
  {
    var later := RevokeSpec(o, actor, target, now, fault).0.grants;
    RoleExactly(o.grants, actor);
    RoleExactly(o.grants, target);
    ApplyKeeps(o, Op.RevokeAdmin(actor, target), now, fault);
    RoleExactly(later, target);
    NoneHeldAfter(o.grants, target, Stamp(actor, now));
  }

  lemma BootstrapMakes(o: Office, head: Id, now: int, fault: Fault)
    requires GrantsOk(o.grants) && head != NOBODY
    ensures RoleIn(BootstrapSpec(o, head, now, fault).0.grants, head) ==
            if o.grants == [] && fault != RowLost then HeadAdmin else RoleIn(o.grants, head)
  {
    RoleExactly(o.grants, head);
    ApplyKeeps(o, Bootstrap(head), now, fault);
    RoleExactly(BootstrapSpec(o, head, now, fault).0.grants, head);
  }

  /** Everybody's role after any call: the first head admin is made once, the head admin makes admins of those who are
      not on the staff and takes it from admins, and nothing else changes what anybody is. A log line that is lost makes
      no difference. */
  lemma RoleAfter(o: Office, op: Op, now: int, fault: Fault, account: Id)
    requires GrantsOk(o.grants) && Named(op)
    ensures RoleIn(Apply(o, op, now, fault).0.grants, account) ==
            match op
            case Bootstrap(head) =>
              if head == account && o.grants == [] && fault != RowLost then HeadAdmin else RoleIn(o.grants, account)
            case GrantAdmin(actor, target) =>
              if target == account && IsHead(o, actor) && !OnStaff(o, account) && fault != RowLost then Admin
              else RoleIn(o.grants, account)
            case RevokeAdmin(actor, target) =>
              if && target == account && IsHead(o, actor) && actor != account && HoldsAdmin(o.grants, account)
                 && fault != RowLost
              then Ordinary else RoleIn(o.grants, account)
            case _ => RoleIn(o.grants, account)
  {
    match op {
      case Bootstrap(head) => BootstrapMakes(o, head, now, fault);
      case GrantAdmin(actor, target) => GrantMakes(o, actor, target, now, fault);
      case RevokeAdmin(actor, target) => RevokeUnmakes(o, actor, target, now, fault);
      case _ =>
    }
    if RoleIn(Apply(o, op, now, fault).0.grants, account) != RoleIn(o.grants, account) {
      RolesChangeOnlyBy(o, op, now, fault, account);
    }
  }

  /** What an accepted sanction does, at any moment from then on: it puts its target, and nobody else, under its own
      kind, and no other, until its length is over, and for good when it has none. */
  lemma PunishmentBears(o: Office, actor: Id, target: Id, kind: Option<Kind>, reason: string, length: int, id: Id,
      now: int, who: Id, later: int, what: Kind)
    requires now <= later && PunishSpec(o, actor, target, kind, reason, length, id, now, Sound).1.None?
    ensures var after := PunishSpec(o, actor, target, kind, reason, length, id, now, Sound).0;
            && after.grants == o.grants
            && (Under(after.sanctions, who, later, what) <==>
                  || Under(o.sanctions, who, later, what)
                  || (who == target && Some(what) == kind && (length <= 0 || later < now + length)))
  {
    var after := PunishSpec(o, actor, target, kind, reason, length, id, now, Sound).0;
    UnderOneMore(after.sanctions, who, later, what);
    assert after.sanctions[..|o.sanctions|] == o.sanctions;
  }

  /** The row an accepted sanction is entered in: who, whom, when, and the reason without blanks around it, its first
      three hundred characters if it is longer. */
  lemma RowEntered(o: Office, actor: Id, target: Id, kind: Option<Kind>, reason: string, length: int, id: Id, now: int)
    requires PunishSpec(o, actor, target, kind, reason, length, id, now, Sound).1.None?
    ensures var after, said := PunishSpec(o, actor, target, kind, reason, length, id, now, Sound).0,
            SqlSplit.Trim(reason);
            && |after.sanctions| == |o.sanctions| + 1
            && var row := after.sanctions[|o.sanctions|];
               && row.id == id && row.account == target && row.actor == actor && row.at == now && row.lifted.None?
               && row.reason != "" && row.reason <= said && (|said| <= 300 ==> row.reason == said)
               && (|said| > 300 ==> |row.reason| == 300)
  {
  }

  /** What an accepted lift does, at any moment: somebody is under a kind afterwards exactly when they are by a row that
      is not the one lifted. */
  lemma LiftFrees(o: Office, actor: Id, id: Id, now: int, who: Id, later: int, what: Kind)
    requires LiftSpec(o, actor, id, now, Sound).1.None?
    ensures var i := LiftableIn(o.sanctions, id);
            Under(LiftSpec(o, actor, id, now, Sound).0.sanctions, who, later, what) <==>
              exists j :: 0 <= j < |o.sanctions| && j != i && Bears(o.sanctions[j], who, later, what)
  {
    var i, after := LiftableIn(o.sanctions, id), LiftSpec(o, actor, id, now, Sound).0.sanctions;
    if j :| 0 <= j < |after| && Bears(after[j], who, later, what) {
      assert j != i && after[j] == o.sanctions[j];
    }
    if j :| 0 <= j < |o.sanctions| && j != i && Bears(o.sanctions[j], who, later, what) {
      assert after[j] == o.sanctions[j];
    }
  }

  /** Who signs a call, whom it is about, and what is written of it. */
  function LineOf(o: Office, op: Op, now: int): LogLine {
    match op
    case Bootstrap(account) => LogLine(account, Bootstrapped, account, now)
    case GrantAdmin(actor, target) => LogLine(actor, Granted, target, now)
    case RevokeAdmin(actor, target) => LogLine(actor, Revoked, target, now)
    case Punish(actor, target, Some(kind), _, _, _) => LogLine(actor, Applied(kind), target, now)
    case Punish(actor, target, None, _, _, _) => LogLine(actor, Elsewhere(""), target, now)
    case Lift(actor, id) => LogLine(actor, Lifted, WhoseRow(o.sanctions, id), now)
    case Record(actor, what, subject) => LogLine(actor, Elsewhere(what), subject, now)
  }

  /** Whose row is lifted under an id: the first that is not lifted yet. */
  function WhoseRow(sanctions: seq<Sanction>, id: Id): Id {
    var i := LiftableIn(sanctions, id);
    if i < |sanctions| then sanctions[i].account else NOBODY
  }

  /** The log after any call: a call that succeeds and changes something is signed by whoever made it, names whom it was
      about and what it was, and is dated now; one that is refused or fails leaves the log as it was. */
  lemma LogAfter(o: Office, op: Op, now: int, fault: Fault)
    ensures var (o', error) := Apply(o, op, now, fault);
            o'.log == if error.None? && o' != o then o.log + [LineOf(o, op, now)] else o.log
  {
    var (o', error) := Apply(o, op, now, fault);
    assert |o'.log| != |o.log| ==> o' != o;
  }

  /** Whom `actor` may sanction: anybody not on the staff, oneself, and, as the head admin, an admin. */
  predicate MaySanction(o: Office, actor: Id, target: Id) {
    actor == target || (!IsHead(o, target) && (IsHead(o, actor) || !HoldsAdmin(o.grants, target)))
  }

  /** Which calls are accepted, exactly, when nothing fails. */
  ghost predicate Acceptable(o: Office, op: Op) {
    match op
    case Bootstrap(account) => o.grants == [] || IsHead(o, account)
    case GrantAdmin(actor, target) => IsHead(o, actor) && !OnStaff(o, target)
    case RevokeAdmin(actor, target) => IsHead(o, actor) && actor != target && HoldsAdmin(o.grants, target)
    case Punish(actor, target, kind, reason, _, _) =>
      OnStaff(o, actor) && kind.Some? && SqlSplit.Trim(reason) != "" && MaySanction(o, actor, target)
    case Lift(actor, id) => OnStaff(o, actor) && exists j :: LiftableAt(o.sanctions, j, id)
    case Record(actor, _, _) => OnStaff(o, actor)
  }

  lemma AcceptedExactly(o: Office, op: Op, now: int)
    requires GrantsOk(o.grants)
    ensures Apply(o, op, now, Sound).1.None? <==> Acceptable(o, op)
  {
    match op {
      case Bootstrap(account) => RoleExactly(o.grants, account);
      case GrantAdmin(actor, target) => RoleExactly(o.grants, actor); RoleExactly(o.grants, target);
      case RevokeAdmin(actor, target) => RoleExactly(o.grants, actor);
      case Punish(actor, target, kind, reason, length, id) =>
        PunishedExactly(o, actor, target, kind, reason, length, id, now);
      case Lift(actor, id) => LiftedExactly(o, actor, id, now);
      case Record(actor, _, _) => RoleExactly(o.grants, actor);
    }
  }

  /** The refusal is true of the staff and of this call. */
  ghost predicate True(o: Office, op: Op, fault: Fault, e: StaffError) {
    match op
    case Bootstrap(account) =>
      || (e == HeadAdminSet && o.grants != [] && !IsHead(o, account)) || (e == Unavailable && fault != Sound)
    case GrantAdmin(actor, target) =>
      || (e == NotHeadAdmin && !IsHead(o, actor)) || (e == AlreadyHeld && OnStaff(o, target))
      || (e == Unavailable && fault != Sound)
    case RevokeAdmin(actor, target) =>
      || (e == NotHeadAdmin && !IsHead(o, actor)) || (e == SelfDemotion && actor == target)
      || (e == NoSuchGrant && !OnStaff(o, target)) || (e == Unavailable && fault != Sound)
    case Punish(actor, target, kind, reason, _, _) =>
      || (e == NotStaff && !OnStaff(o, actor)) || (e == BadKind && kind.None?)
      || (e == ReasonMissing && SqlSplit.Trim(reason) == "")
      || (e == NotHeadAdmin && actor != target && OnStaff(o, target) && (IsHead(o, target) || !IsHead(o, actor)))
      || (e == Unavailable && fault != Sound)
    case Lift(actor, id) =>
      || (e == NotStaff && !OnStaff(o, actor)) || (e == NoSanction && forall j :: !LiftableAt(o.sanctions, j, id))
      || (e == Unavailable && fault != Sound)
    case Record(actor, _, _) => (e == NotStaff && !OnStaff(o, actor)) || (e == Unavailable && fault != Sound)
  }

  /** Whatever is refused, the reason given holds; and unless it was the log line that was lost, nothing has changed. */
  lemma RefusalsAreTrue(o: Office, op: Op, now: int, fault: Fault)
    requires GrantsOk(o.grants) && Apply(o, op, now, fault).1.Some?
    ensures True(o, op, fault, Apply(o, op, now, fault).1.value)
    ensures fault != LineLost || Apply(o, op, now, fault).1 != Some(Unavailable) ==> Apply(o, op, now, fault).0 == o
  {
    match op {
      case Bootstrap(account) => RoleExactly(o.grants, account);
      case GrantAdmin(actor, target) => RoleExactly(o.grants, actor); RoleExactly(o.grants, target);
      case RevokeAdmin(actor, target) => RoleExactly(o.grants, actor); RoleExactly(o.grants, target);
      case Punish(actor, target, _, _, _, _) => RoleExactly(o.grants, actor); RoleExactly(o.grants, target);
      case Lift(actor, _) => RoleExactly(o.grants, actor);
      case Record(actor, _, _) => RoleExactly(o.grants, actor);
    }
  }
}
