/** What holds of the staff after any run of role, sanction and log calls. */
module ModerationRuns {
  import opened Basics
  import opened Moderation
  import SqlSplit

  /** The head admin's grant comes first and stands; every other grant is an admin's, given and taken back by the head
      admin; and no account has two grants that stand. */
  ghost predicate GrantsOk(grants: seq<Grant>) {
    && (grants != [] ==> StandingHead(grants[0]) && grants[0].account != NOBODY && grants[0].author.None?)
    && (forall i :: 0 < i < |grants| ==>
          grants[i].role == Admin && grants[i].author == Some(grants[0].account)
          && (grants[i].revoked.Some? ==> grants[i].revoked.value.who == grants[0].account))
    && (forall i, j :: 0 <= i < j < |grants| && grants[i].revoked.None? && grants[j].revoked.None? ==>
          grants[i].account != grants[j].account)
  }

  /** An account is named wherever the first head admin is. */
  predicate Named(op: Op) {
    op.Bootstrap? ==> op.account != NOBODY
  }

  /** Roles are what the standing grants say, each way. */
  lemma {:induction false} RoleExactly(grants: seq<Grant>, account: Id)
    requires GrantsOk(grants)
    ensures RoleIn(grants, account) == HeadAdmin <==> grants != [] && grants[0].account == account
    ensures RoleIn(grants, account) == Admin <==> HoldsAdmin(grants, account)
    ensures HeadOf(grants) == if grants == [] then NOBODY else grants[0].account
  {
    if grants != [] {
      var front, last := grants[..|grants| - 1], grants[|grants| - 1];
      if front != [] {
        assert front[0] == grants[0];
        RoleExactly(front, account);
        HoldsOneMore(grants, account);
      } else {
        assert grants == [last];
      }
    }
  }

  lemma HoldsOneMore(grants: seq<Grant>, account: Id)
    requires grants != []
    ensures HoldsAdmin(grants, account) <==>
              HoldsAdmin(grants[..|grants| - 1], account) || Withdrawable(grants[|grants| - 1], account)
  {
    var front := grants[..|grants| - 1];
    if i :| 0 <= i < |front| && Withdrawable(front[i], account) {
      assert grants[i] == front[i];
    }
    if i :| 0 <= i < |grants| && Withdrawable(grants[i], account) {
      assert i < |front| ==> front[i] == grants[i];
    }
  }

  /** Every standing grant makes its account staff, so somebody who is not staff has none. */
  lemma NoGrantStands(grants: seq<Grant>, account: Id, i: int)
    requires GrantsOk(grants) && 0 <= i < |grants| && grants[i].revoked.None? && grants[i].account == account
    ensures IsStaff(RoleIn(grants, account))
  {
    RoleExactly(grants, account);
    if i > 0 { assert Withdrawable(grants[i], account); }
  }

  lemma AppendKeeps(grants: seq<Grant>, g: Grant)
    requires GrantsOk(grants) && g.revoked.None? && !IsStaff(RoleIn(grants, g.account))
    requires if grants == [] then g.role == HeadAdmin && g.account != NOBODY && g.author.None?
             else g.role == Admin && g.author == Some(grants[0].account)
    ensures GrantsOk(grants + [g])
  {
    forall i | 0 <= i < |grants| && grants[i].revoked.None? ensures grants[i].account != g.account {
      if grants[i].account == g.account { NoGrantStands(grants, g.account, i); }
    }
  }

  lemma WithdrawKeeps(grants: seq<Grant>, account: Id, s: Stamp)
    requires GrantsOk(grants) && grants != [] && s.who == grants[0].account
    ensures GrantsOk(Withdrawn(grants, account, s))
  {
  }

  lemma ApplyKeeps(o: Office, op: Op, now: int, fault: Fault)
    requires GrantsOk(o.grants) && Named(op)
    ensures GrantsOk(Apply(o, op, now, fault).0.grants)
  {
    match op {
      case Bootstrap(account) =>
        RoleExactly(o.grants, account);
        if o.grants == [] { AppendKeeps(o.grants, Grant(account, HeadAdmin, None, now, None)); }
      case GrantAdmin(actor, target) =>
        RoleExactly(o.grants, actor);
        if RoleIn(o.grants, actor) == HeadAdmin && !IsStaff(RoleIn(o.grants, target)) {
          AppendKeeps(o.grants, Grant(target, Admin, Some(actor), now, None));
        }
      case RevokeAdmin(actor, target) =>
        RoleExactly(o.grants, actor);
        if RoleIn(o.grants, actor) == HeadAdmin { WithdrawKeeps(o.grants, target, Stamp(actor, now)); }
      case _ =>
    }
  }

  /** Nothing is ever taken out of the record: rows stay, and what is stamped on one stays as it was stamped. */
  predicate Outlasts(o: Office, later: Office) {
    && |o.grants| <= |later.grants| && |o.sanctions| <= |later.sanctions| && o.log <= later.log
    && (forall i :: 0 <= i < |o.grants| ==>
          later.grants[i].(revoked := None) == o.grants[i].(revoked := None)
          && (o.grants[i].revoked.Some? ==> later.grants[i] == o.grants[i]))
    && (forall i :: 0 <= i < |o.sanctions| ==>
          later.sanctions[i].(lifted := None) == o.sanctions[i].(lifted := None)
          && (o.sanctions[i].lifted.Some? ==> later.sanctions[i] == o.sanctions[i]))
  }

  lemma ApplyOutlasts(o: Office, op: Op, now: int, fault: Fault)
    ensures Outlasts(o, Apply(o, op, now, fault).0)
  {
    if op.Lift? { var _ := LiftableIn(o.sanctions, op.id); }
  }

  /** A call and when it is made. */
  datatype Call = Call(op: Op, now: int, fault: Fault)

  function Run(o: Office, calls: seq<Call>): Office {
    if calls == [] then o
    else
      var last := calls[|calls| - 1];
      Apply(Run(o, calls[..|calls| - 1]), last.op, last.now, last.fault).0
  }

  const NEW_OFFICE: Office := Office([], [], [])

  ghost predicate AllNamed(calls: seq<Call>) {
    forall i :: 0 <= i < |calls| ==> Named(calls[i].op)
  }

  lemma {:induction false} RunKeeps(o: Office, calls: seq<Call>)
    requires GrantsOk(o.grants) && AllNamed(calls)
    ensures GrantsOk(Run(o, calls).grants) && Outlasts(o, Run(o, calls))
  {
    if calls != [] {
      var last, front := calls[|calls| - 1], calls[..|calls| - 1];
      RunKeeps(o, front);
      ApplyKeeps(Run(o, front), last.op, last.now, last.fault);
      ApplyOutlasts(Run(o, front), last.op, last.now, last.fault);
    }
  }

  /** Once there is a head admin it is that account for good, whatever is called. */
  lemma HeadAdminForGood(before: seq<Call>, after: seq<Call>, head: Id)
    requires AllNamed(before) && AllNamed(after) && head != NOBODY
    requires HeadOf(Run(NEW_OFFICE, before).grants) == head
    ensures HeadOf(Run(Run(NEW_OFFICE, before), after).grants) == head
    ensures RoleIn(Run(Run(NEW_OFFICE, before), after).grants, head) == HeadAdmin
  {
    var o := Run(NEW_OFFICE, before);
    RunKeeps(NEW_OFFICE, before);
    RunKeeps(o, after);
    RoleExactly(o.grants, head);
    RoleExactly(Run(o, after).grants, head);
  }

  /** In any run: at most one standing grant to an account, no admin's grant before the head admin's, and every
      appointment and every withdrawal the head admin's own. */
  lemma AppointedByTheHead(calls: seq<Call>, i: nat, j: nat)
    requires AllNamed(calls) && i < j < |Run(NEW_OFFICE, calls).grants|
    ensures var grants := Run(NEW_OFFICE, calls).grants;
            && grants[j].role == Admin && grants[0].role == HeadAdmin && grants[0].revoked.None?
            && grants[j].author == Some(HeadOf(grants))
            && (grants[j].revoked.Some? ==> grants[j].revoked.value.who == HeadOf(grants))
            && (grants[i].revoked.None? && grants[j].revoked.None? ==> grants[i].account != grants[j].account)
  {
    RunKeeps(NEW_OFFICE, calls);
    RoleExactly(Run(NEW_OFFICE, calls).grants, NOBODY);
  }

  lemma GrantMakesOnly(o: Office, actor: Id, target: Id, now: int, fault: Fault, account: Id)
    requires GrantsOk(o.grants)
    requires RoleIn(GrantSpec(o, actor, target, now, fault).0.grants, account) != RoleIn(o.grants, account)
    ensures actor == HeadOf(o.grants) && target == account
    ensures RoleIn(GrantSpec(o, actor, target, now, fault).0.grants, account) == Admin
  {
    var later := GrantSpec(o, actor, target, now, fault).0.grants;
    ApplyKeeps(o, Op.GrantAdmin(actor, target), now, fault);
    RoleExactly(o.grants, actor);
    RoleExactly(o.grants, account);
    RoleExactly(later, account);
    HoldsOneMore(later, account);
  }

  lemma RevokeUnmakesOnly(o: Office, actor: Id, target: Id, now: int, fault: Fault, account: Id)
    requires GrantsOk(o.grants)
    requires RoleIn(RevokeSpec(o, actor, target, now, fault).0.grants, account) != RoleIn(o.grants, account)
    ensures actor == HeadOf(o.grants) && target == account
    ensures RoleIn(RevokeSpec(o, actor, target, now, fault).0.grants, account) == Ordinary
  {
    var later := RevokeSpec(o, actor, target, now, fault).0.grants;
    ApplyKeeps(o, Op.RevokeAdmin(actor, target), now, fault);
    RoleExactly(o.grants, actor);
    RoleExactly(o.grants, account);
    RoleExactly(later, account);
    if target != account { OthersHoldOn(o.grants, target, Stamp(actor, now), account); }
    NoneHeldAfter(o.grants, target, Stamp(actor, now));
  }

  lemma BootstrapMakesOnly(o: Office, account: Id, now: int, fault: Fault, other: Id)
    requires GrantsOk(o.grants) && account != NOBODY
    requires RoleIn(BootstrapSpec(o, account, now, fault).0.grants, other) != RoleIn(o.grants, other)
    ensures o.grants == [] && account == other
    ensures RoleIn(BootstrapSpec(o, account, now, fault).0.grants, other) == HeadAdmin
  {
    ApplyKeeps(o, Bootstrap(account), now, fault);
    RoleExactly(o.grants, other);
    RoleExactly(BootstrapSpec(o, account, now, fault).0.grants, other);
  }

  /** An admin is made only by the head admin's grant, and unmade only by the head admin's withdrawal. */
  lemma RolesChangeOnlyBy(o: Office, op: Op, now: int, fault: Fault, account: Id)
    requires GrantsOk(o.grants) && Named(op)
    requires RoleIn(Apply(o, op, now, fault).0.grants, account) != RoleIn(o.grants, account)
    ensures match RoleIn(Apply(o, op, now, fault).0.grants, account)
            case HeadAdmin => o.grants == [] && op == Bootstrap(account)
            case Admin => op == Op.GrantAdmin(HeadOf(o.grants), account)
            case Ordinary => op == Op.RevokeAdmin(HeadOf(o.grants), account)
  {
    match op {
      case Bootstrap(head) => BootstrapMakesOnly(o, head, now, fault, account);
      case GrantAdmin(actor, target) => GrantMakesOnly(o, actor, target, now, fault, account);
      case RevokeAdmin(actor, target) => RevokeUnmakesOnly(o, actor, target, now, fault, account);
      case _ =>
    }
  }

  lemma OthersHoldOn(grants: seq<Grant>, target: Id, s: Stamp, account: Id)
    requires target != account
    ensures HoldsAdmin(Withdrawn(grants, target, s), account) <==> HoldsAdmin(grants, account)
  {
    var later := Withdrawn(grants, target, s);
    if i :| 0 <= i < |grants| && Withdrawable(grants[i], account) { assert Withdrawable(later[i], account); }
    if i :| 0 <= i < |later| && Withdrawable(later[i], account) { assert Withdrawable(grants[i], account); }
  }

  lemma NoneHeldAfter(grants: seq<Grant>, target: Id, s: Stamp)
    ensures !HoldsAdmin(Withdrawn(grants, target, s), target)
  {
  }

  /** Which sanctions are accepted: those of staff, of a known kind, with a reason, against anybody but the head admin
      and, unless it is the head admin's, but an admin; or against oneself. */
  lemma PunishedExactly(o: Office, actor: Id, target: Id, kind: Option<Kind>, reason: string, length: int, id: Id,
      now: int)
    requires GrantsOk(o.grants)
    ensures var head := HeadOf(o.grants);
            PunishSpec(o, actor, target, kind, reason, length, id, now, Sound).1.None? <==>
              && o.grants != [] && (actor == head || HoldsAdmin(o.grants, actor))
              && kind.Some? && SqlSplit.Trim(reason) != ""
              && (actor == target || (target != head && (actor == head || !HoldsAdmin(o.grants, target))))
  {
    RoleExactly(o.grants, actor);
    RoleExactly(o.grants, target);
  }

  /** A sanction by an ordinary admin is never against somebody on the staff at that moment, themselves aside. */
  predicate Fairly(grants: seq<Grant>, actor: Id, target: Id) {
    RoleIn(grants, actor) == HeadAdmin || actor == target || RoleIn(grants, target) == Ordinary
  }

  lemma NewRowIsFair(o: Office, op: Op, now: int, fault: Fault)
    requires |Apply(o, op, now, fault).0.sanctions| > |o.sanctions|
    ensures op.Punish? && |Apply(o, op, now, fault).0.sanctions| == |o.sanctions| + 1
    ensures var row := Apply(o, op, now, fault).0.sanctions[|o.sanctions|];
            row.actor == op.actor && row.account == op.target
    ensures Fairly(o.grants, op.actor, op.target)
  {
  }

  lemma RowsAreEntered(o: Office, op: Op, now: int, fault: Fault, i: nat)
    requires i < |o.sanctions|
    ensures i < |Apply(o, op, now, fault).0.sanctions|
    ensures var row, later := o.sanctions[i], Apply(o, op, now, fault).0.sanctions[i];
            later.actor == row.actor && later.account == row.account
  {
    ApplyOutlasts(o, op, now, fault);
  }

  /** The `k`-th call of a run entered the `i`-th row, fairly. */
  ghost predicate EnteredBy(calls: seq<Call>, row: Sanction, k: nat) {
    && k < |calls| && calls[k].op.Punish?
    && calls[k].op.actor == row.actor && calls[k].op.target == row.account
    && Fairly(Run(NEW_OFFICE, calls[..k]).grants, row.actor, row.account)
  }

  lemma EnteredEarlier(calls: seq<Call>, row: Sanction, later: Sanction, k: nat)
    requires calls != [] && EnteredBy(calls[..|calls| - 1], row, k)
    requires later.actor == row.actor && later.account == row.account
    ensures EnteredBy(calls, later, k)
  {
    assert calls[..|calls| - 1][..k] == calls[..k];
  }

  /** Every sanction of every run was entered by its actor against its account, and fairly as things stood then. */
  lemma {:induction false} StaffNotTurnedOnEachOther(calls: seq<Call>, i: nat) returns (k: nat)
    requires i < |Run(NEW_OFFICE, calls).sanctions|
    ensures EnteredBy(calls, Run(NEW_OFFICE, calls).sanctions[i], k)
  {
    var front, last := calls[..|calls| - 1], calls[|calls| - 1];
    var before := Run(NEW_OFFICE, front);
    if i < |before.sanctions| {
      RowsAreEntered(before, last.op, last.now, last.fault, i);
      k := StaffNotTurnedOnEachOther(front, i);
      EnteredEarlier(calls, before.sanctions[i], Run(NEW_OFFICE, calls).sanctions[i], k);
    } else {
      k := |front|;
      NewRowIsFair(before, last.op, last.now, last.fault);
    }
  }

  function CountGrants(log: seq<LogLine>): nat {
    if log == [] then 0
    else CountGrants(log[..|log| - 1]) + if log[|log| - 1].action in {Bootstrapped, Granted} then 1 else 0
  }

  function CountRevoked(log: seq<LogLine>): nat {
    if log == [] then 0
    else CountRevoked(log[..|log| - 1]) + if log[|log| - 1].action == Revoked then 1 else 0
  }

  function CountApplied(log: seq<LogLine>): nat {
    if log == [] then 0
    else CountApplied(log[..|log| - 1]) + if log[|log| - 1].action.Applied? then 1 else 0
  }

  function CountLifted(log: seq<LogLine>): nat {
    if log == [] then 0
    else CountLifted(log[..|log| - 1]) + if log[|log| - 1].action == Lifted then 1 else 0
  }

  function RowsRevoked(grants: seq<Grant>): nat {
    if grants == [] then 0
    else RowsRevoked(grants[..|grants| - 1]) + if grants[|grants| - 1].revoked.Some? then 1 else 0
  }

  function RowsLifted(sanctions: seq<Sanction>): nat {
    if sanctions == [] then 0
    else RowsLifted(sanctions[..|sanctions| - 1]) + if sanctions[|sanctions| - 1].lifted.Some? then 1 else 0
  }

  /** How many log lines of each kind are missing for the rows and stamps there are. */
  datatype Debts = Debts(grants: int, revoked: int, applied: int, lifted: int)

  function DebtsOf(o: Office): Debts {
    Debts(|o.grants| - CountGrants(o.log), RowsRevoked(o.grants) - CountRevoked(o.log),
          |o.sanctions| - CountApplied(o.log), RowsLifted(o.sanctions) - CountLifted(o.log))
  }

  /** The log accounts for every row and every stamp: as many lines of each kind as there are of each. */
  predicate Accounted(o: Office) {
    DebtsOf(o) == Debts(0, 0, 0, 0)
  }

  predicate NoLess(d: Debts, e: Debts) {
    d.grants <= e.grants && d.revoked <= e.revoked && d.applied <= e.applied && d.lifted <= e.lifted
  }

  /** A call that wrote its row and lost its line. */
  predicate Unlogged(o: Office, call: Call) {
    call.fault == LineLost && !call.op.Record? && Apply(o, call.op, call.now, Sound).0 != o
  }

  lemma {:induction false} OneMoreRevoked(grants: seq<Grant>, later: seq<Grant>, i: nat)
    requires |later| == |grants| && i < |grants| && grants[i].revoked.None? && later[i].revoked.Some?
    requires forall j :: 0 <= j < |grants| && j != i ==> later[j] == grants[j]
    ensures RowsRevoked(later) == RowsRevoked(grants) + 1
  {
    var n := |grants| - 1;
    if i == n {
      assert later[..n] == grants[..n];
    } else {
      OneMoreRevoked(grants[..n], later[..n], i);
    }
  }

  lemma {:induction false} OneMoreLifted(rows: seq<Sanction>, i: nat, row: Sanction)
    requires i < |rows| && rows[i].lifted.None? && row.lifted.Some?
    ensures RowsLifted(rows[i := row]) == RowsLifted(rows) + 1
  {
    var n := |rows| - 1;
    if i == n {
      assert rows[i := row][..n] == rows[..n];
    } else {
      OneMoreLifted(rows[..n], i, row);
      assert rows[i := row][..n] == rows[..n][i := row];
    }
  }

  /** A withdrawal stamps exactly one row, because no account has two grants that stand. */
  lemma WithdrawsOne(grants: seq<Grant>, target: Id, s: Stamp)
    requires GrantsOk(grants) && HoldsAdmin(grants, target)
    ensures RowsRevoked(Withdrawn(grants, target, s)) == RowsRevoked(grants) + 1
  {
    var i :| 0 <= i < |grants| && Withdrawable(grants[i], target);
    OneMoreRevoked(grants, Withdrawn(grants, target, s), i);
  }

  lemma LogLines(log: seq<LogLine>, line: LogLine)
    ensures CountGrants(log + [line]) == CountGrants(log) + if line.action in {Bootstrapped, Granted} then 1 else 0
    ensures CountRevoked(log + [line]) == CountRevoked(log) + if line.action == Revoked then 1 else 0
    ensures CountApplied(log + [line]) == CountApplied(log) + if line.action.Applied? then 1 else 0
    ensures CountLifted(log + [line]) == CountLifted(log) + if line.action == Lifted then 1 else 0
  {
    assert (log + [line])[..|log|] == log;
  }

  /** A call that succeeds adds exactly one line, except asking again for the head admin there is; one that is refused
      or fails adds none. */
  lemma OneLineEach(o: Office, op: Op, now: int, fault: Fault)
    ensures var (o', error) := Apply(o, op, now, fault);
            |o'.log| == |o.log| + (if error.None? && o' != o then 1 else 0)
    ensures var (o', error) := Apply(o, op, now, fault);
            error.None? && o' == o ==> op.Bootstrap? && op.account == HeadOf(o.grants)
  {
    var o' := Apply(o, op, now, fault).0;
    assert |o'.log| != |o.log| ==> o' != o;
  }

  /** One row or stamp more, of one kind, and its line, or not its line. */
  lemma WrittenDebts(o: Office, rowed: Office, line: LogLine, fault: Fault)
    requires rowed.log == o.log
    requires |rowed.grants| - |o.grants| == if line.action in {Bootstrapped, Granted} then 1 else 0
    requires RowsRevoked(rowed.grants) - RowsRevoked(o.grants) == if line.action == Revoked then 1 else 0
    requires |rowed.sanctions| - |o.sanctions| == if line.action.Applied? then 1 else 0
    requires RowsLifted(rowed.sanctions) - RowsLifted(o.sanctions) == if line.action == Lifted then 1 else 0
    requires !line.action.Elsewhere?
    ensures NoLess(DebtsOf(o), DebtsOf(Written(o, rowed, line, fault).0))
    ensures DebtsOf(Written(o, rowed, line, fault).0) == DebtsOf(o) <==> fault != LineLost
  {
    LogLines(o.log, line);
  }

  lemma GrantAdds(o: Office, g: Grant, line: LogLine, fault: Fault)
    requires g.revoked.None? && line.action in {Bootstrapped, Granted}
    ensures var after := Written(o, o.(grants := o.grants + [g]), line, fault).0;
            NoLess(DebtsOf(o), DebtsOf(after)) && (DebtsOf(after) == DebtsOf(o) <==> fault != LineLost)
  {
    assert (o.grants + [g])[..|o.grants|] == o.grants;
    WrittenDebts(o, o.(grants := o.grants + [g]), line, fault);
  }

  lemma BootstrapDebts(o: Office, account: Id, now: int, fault: Fault)
    ensures var after := BootstrapSpec(o, account, now, fault).0;
            NoLess(DebtsOf(o), DebtsOf(after))
            && (DebtsOf(after) == DebtsOf(o) <==> !Unlogged(o, Call(Bootstrap(account), now, fault)))
  {
    if HeadOf(o.grants) == NOBODY {
      GrantAdds(o, Grant(account, HeadAdmin, None, now, None), LogLine(account, Bootstrapped, account, now), fault);
      OneLineEach(o, Bootstrap(account), now, Sound);
    }
  }

  lemma GrantDebts(o: Office, actor: Id, target: Id, now: int, fault: Fault)
    ensures var after := GrantSpec(o, actor, target, now, fault).0;
            NoLess(DebtsOf(o), DebtsOf(after))
            && (DebtsOf(after) == DebtsOf(o) <==> !Unlogged(o, Call(Op.GrantAdmin(actor, target), now, fault)))
  {
    if RoleIn(o.grants, actor) == HeadAdmin && !IsStaff(RoleIn(o.grants, target)) {
      GrantAdds(o, Grant(target, Admin, Some(actor), now, None), LogLine(actor, Granted, target, now), fault);
    }
  }

  lemma WithdrawalAdds(o: Office, target: Id, s: Stamp, line: LogLine, fault: Fault)
    requires GrantsOk(o.grants) && HoldsAdmin(o.grants, target) && line.action == Revoked
    ensures var after := Written(o, o.(grants := Withdrawn(o.grants, target, s)), line, fault).0;
            NoLess(DebtsOf(o), DebtsOf(after)) && (DebtsOf(after) == DebtsOf(o) <==> fault != LineLost)
  {
    WithdrawsOne(o.grants, target, s);
    WrittenDebts(o, o.(grants := Withdrawn(o.grants, target, s)), line, fault);
  }

  lemma RevokeDebts(o: Office, actor: Id, target: Id, now: int, fault: Fault)
    requires GrantsOk(o.grants)
    ensures var after := RevokeSpec(o, actor, target, now, fault).0;
            NoLess(DebtsOf(o), DebtsOf(after))
            && (DebtsOf(after) == DebtsOf(o) <==> !Unlogged(o, Call(Op.RevokeAdmin(actor, target), now, fault)))
  {
    if HoldsAdmin(o.grants, target) {
      WithdrawalAdds(o, target, Stamp(actor, now), LogLine(actor, Revoked, target, now), fault);
    }
  }

  lemma PunishDebts(o: Office, op: Op, now: int, fault: Fault)
    requires op.Punish?
    ensures var after := Apply(o, op, now, fault).0;
            NoLess(DebtsOf(o), DebtsOf(after)) && (DebtsOf(after) == DebtsOf(o) <==> !Unlogged(o, Call(op, now, fault)))
  {
    var rowed := Apply(o, op, now, LineLost).0;
    if Apply(o, op, now, Sound).1.None? {
      assert rowed.sanctions[..|o.sanctions|] == o.sanctions;
      WrittenDebts(o, rowed, LogLine(op.actor, Applied(op.kind.value), op.target, now), fault);
    }
  }

  lemma LiftDebts(o: Office, actor: Id, id: Id, now: int, fault: Fault)
    ensures var after := LiftSpec(o, actor, id, now, fault).0;
            NoLess(DebtsOf(o), DebtsOf(after))
            && (DebtsOf(after) == DebtsOf(o) <==> !Unlogged(o, Call(Op.Lift(actor, id), now, fault)))
  {
    var i := LiftableIn(o.sanctions, id);
    if i < |o.sanctions| {
      var row := o.sanctions[i].(lifted := Some(Stamp(actor, now)));
      OneMoreLifted(o.sanctions, i, row);
      WrittenDebts(o, o.(sanctions := o.sanctions[i := row]), LogLine(actor, Lifted, row.account, now), fault);
    }
  }

  lemma RecordDebts(o: Office, actor: Id, what: string, subject: Id, now: int, fault: Fault)
    ensures DebtsOf(RecordSpec(o, actor, what, subject, now, fault).0) == DebtsOf(o)
  {
    LogLines(o.log, LogLine(actor, Elsewhere(what), subject, now));
  }

  /** What the log owes never shrinks, and grows exactly with a call that loses its line. */
  lemma CallDebts(o: Office, call: Call)
    requires GrantsOk(o.grants)
    ensures var after := Apply(o, call.op, call.now, call.fault).0;
            NoLess(DebtsOf(o), DebtsOf(after)) && (DebtsOf(after) == DebtsOf(o) <==> !Unlogged(o, call))
  {
    match call.op {
      case Bootstrap(account) => BootstrapDebts(o, account, call.now, call.fault);
      case GrantAdmin(actor, target) => GrantDebts(o, actor, target, call.now, call.fault);
      case RevokeAdmin(actor, target) => RevokeDebts(o, actor, target, call.now, call.fault);
      case Punish(_, _, _, _, _, _) => PunishDebts(o, call.op, call.now, call.fault);
      case Lift(actor, id) => LiftDebts(o, actor, id, call.now, call.fault);
      case Record(actor, what, subject) => RecordDebts(o, actor, what, subject, call.now, call.fault);
    }
  }

  /** No call of a run wrote its row and lost its line. */
  predicate NoneUnlogged(calls: seq<Call>) {
    calls == [] ||
    (NoneUnlogged(calls[..|calls| - 1]) && !Unlogged(Run(NEW_OFFICE, calls[..|calls| - 1]), calls[|calls| - 1]))
  }

  /** In every run the log accounts for every grant, withdrawal, sanction and lift if and only if no call wrote its row
      and then failed to write its line; otherwise it owes lines for good. */
  lemma {:induction false} OnRecordExactly(calls: seq<Call>)
    requires AllNamed(calls)
    ensures NoLess(Debts(0, 0, 0, 0), DebtsOf(Run(NEW_OFFICE, calls)))
    ensures Accounted(Run(NEW_OFFICE, calls)) <==> NoneUnlogged(calls)
  {
    if calls != [] {
      var front, last := calls[..|calls| - 1], calls[|calls| - 1];
      OnRecordExactly(front);
      RunKeeps(NEW_OFFICE, front);
      CallDebts(Run(NEW_OFFICE, front), last);
    }
  }

  /** Who may lift what: anybody on the staff, anything that is not lifted. */
  lemma LiftedExactly(o: Office, actor: Id, id: Id, now: int)
    requires GrantsOk(o.grants)
    ensures LiftSpec(o, actor, id, now, Sound).1.None? <==>
              && o.grants != [] && (actor == HeadOf(o.grants) || HoldsAdmin(o.grants, actor))
              && exists j :: LiftableAt(o.sanctions, j, id)
  {
    RoleExactly(o.grants, actor);
    var i := LiftableIn(o.sanctions, id);
    if i < |o.sanctions| { assert LiftableAt(o.sanctions, i, id); }
  }

  /** The lifts that go beyond what the lifter could impose: exactly those of a row against the head admin, or against
      an admin by anybody but the head admin, one's own rows aside. */
  lemma LiftsBeyondReachExactly(o: Office, actor: Id, id: Id, now: int, kind: Kind, reason: string, length: int,
      newId: Id)
    requires GrantsOk(o.grants) && SqlSplit.Trim(reason) != "" && LiftSpec(o, actor, id, now, Sound).1.None?
    ensures LiftableIn(o.sanctions, id) < |o.sanctions|
    ensures var target := o.sanctions[LiftableIn(o.sanctions, id)].account;
            PunishSpec(o, actor, target, Some(kind), reason, length, newId, now, Sound).1.Some? <==>
              actor != target && (target == HeadOf(o.grants)
                  || (actor != HeadOf(o.grants) && HoldsAdmin(o.grants, target)))
  {
    LiftedExactly(o, actor, id, now);
    var target := o.sanctions[LiftableIn(o.sanctions, id)].account;
    PunishedExactly(o, actor, target, Some(kind), reason, length, newId, now);
  }

  /** So what the head admin imposed on an admin is the admin's own to lift. */
  lemma AdminLiftsTheirOwn(o: Office, admin: Id, kind: Kind, reason: string, length: int, id: Id, now: int)
    requires GrantsOk(o.grants) && HoldsAdmin(o.grants, admin) && SqlSplit.Trim(reason) != ""
    requires forall j :: !LiftableAt(o.sanctions, j, id)
    ensures var punished := PunishSpec(o, HeadOf(o.grants), admin, Some(kind), reason, length, id, now, Sound);
            && punished.1.None? && InForce(punished.0.sanctions[|o.sanctions|], now)
            && LiftSpec(punished.0, admin, id, now, Sound).1.None?
            && !InForce(LiftSpec(punished.0, admin, id, now, Sound).0.sanctions[|o.sanctions|], now)
  {
    PunishedExactly(o, HeadOf(o.grants), admin, Some(kind), reason, length, id, now);
    var punished := PunishSpec(o, HeadOf(o.grants), admin, Some(kind), reason, length, id, now, Sound).0;
    var i := LiftableIn(punished.sanctions, id);
    assert LiftableAt(punished.sanctions, |o.sanctions|, id);
    if i < |o.sanctions| { assert LiftableAt(o.sanctions, i, id); }
    LiftedExactly(punished, admin, id, now);
  }
}
