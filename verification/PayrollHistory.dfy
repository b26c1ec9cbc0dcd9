/** Where the data of a payroll comes from: which handler calls of a run decided its status, its
    payment, its pay time, its payslips, its notes and its flag. */
module PayrollHistory {
  import opened AddressText
  import opened HexText
  import opened Payroll
  import opened Positional

  // ---- what an effective call is ------------------------------------------------------------------

  predicate EffectiveAudit(actions: seq<Action>, k: nat, id: nat, op: string) {
    && k < |actions| && actions[k].Audit? && !actions[k].saveFails
    && actions[k].req.id == id && actions[k].req.op == op && StatusAt(actions, k, id) == Some(Waiting)
  }

  predicate EffectivePay(actions: seq<Action>, k: nat, id: nat) {
    && k < |actions| && actions[k].Pay? && !actions[k].saveFails
    && actions[k].id == id && id != 0 && actions[k].txHash != "" && StatusAt(actions, k, id) == Some(Approved)
    && actions[k].settings.chain != "" && actions[k].settings.contract != "" && actions[k].settings.token != ""
  }

  predicate EffectiveCheck(actions: seq<Action>, k: nat, id: nat) {
    && k < |actions| && actions[k].StatusCheck? && !actions[k].saveFails
    && actions[k].id == id && id != 0 && actions[k].chainKnown && actions[k].receipt == Confirmed
    && StatusAt(actions, k, id) == Some(Paying)
  }

  function RowAt(actions: seq<Action>, n: nat, id: nat): PayrollRow
    requires n <= |actions| && StatusAt(actions, n, id).Some?
  {
    Run(actions[..n]).payrolls[id]
  }

  // ---- one step -----------------------------------------------------------------------------------

  /** What a step that moves a payroll out of a status must have been, and what it leaves. */
  lemma AuditDecides(actions: seq<Action>, n: nat, id: nat)
    requires SoundRun(actions) && n < |actions| && StatusAt(actions, n, id) == Some(Waiting)
    ensures EffectiveAudit(actions, n, id, "approve") ==> StatusAt(actions, n + 1, id) == Some(Approved)
    ensures EffectiveAudit(actions, n, id, "reject") ==> StatusAt(actions, n + 1, id) == Some(Rejected)
    ensures !EffectiveAudit(actions, n, id, "approve") && !EffectiveAudit(actions, n, id, "reject") ==>
              StatusAt(actions, n + 1, id) == Some(Waiting)
  {
    RunKeepsInv(actions, n);
    NextState(actions, n);
    assert "approve" != "reject" by { assert |"approve"| == 7 && |"reject"| == 6; }
  }

  lemma PayDecides(actions: seq<Action>, n: nat, id: nat)
    requires SoundRun(actions) && n < |actions| && StatusAt(actions, n, id) == Some(Approved)
    ensures StatusAt(actions, n + 1, id) == Some(if EffectivePay(actions, n, id) then Paying else Approved)
    ensures EffectivePay(actions, n, id) ==>
              && RowAt(actions, n + 1, id).txHash == actions[n].txHash
              && RowAt(actions, n + 1, id).chain == actions[n].settings.chain
  {
    RunKeepsInv(actions, n);
    NextState(actions, n);
  }

  lemma CheckDecides(actions: seq<Action>, n: nat, id: nat)
    requires SoundRun(actions) && n < |actions| && StatusAt(actions, n, id) == Some(Paying)
    ensures StatusAt(actions, n + 1, id) == Some(if EffectiveCheck(actions, n, id) then Paid else Paying)
    ensures EffectiveCheck(actions, n, id) ==> RowAt(actions, n + 1, id).payTime == Some(actions[n].now)
  {
    RunKeepsInv(actions, n);
    NextState(actions, n);
  }

  /** New payrolls and drafts are not decided yet. */
  lemma EarlyStep(actions: seq<Action>, n: nat, id: nat)
    requires SoundRun(actions) && n < |actions|
    requires StatusAt(actions, n, id) == None || StatusAt(actions, n, id) == Some(Draft)
    ensures StatusAt(actions, n + 1, id) in {None, Some(Draft), Some(Waiting)}
  {
    RunKeepsInv(actions, n);
    NextState(actions, n);
    StepKeeps(Run(actions[..n]), actions[n]);
    assert RowSteps(Run(actions[..n]), Run(actions[..n + 1]), id);
  }

  lemma EndStays(actions: seq<Action>, n: nat, id: nat)
    requires SoundRun(actions) && n < |actions|
    requires StatusAt(actions, n, id) == Some(Rejected) || StatusAt(actions, n, id) == Some(Paid)
    ensures StatusAt(actions, n + 1, id) == StatusAt(actions, n, id)
  {
    StatusAdvances(actions, n, id);
  }

  // ---- who decided --------------------------------------------------------------------------------

  predicate Approves(st: Option<Status>) {
    st == Some(Approved) || st == Some(Paying) || st == Some(Paid)
  }

  lemma {:induction false} ApprovalsBefore(actions: seq<Action>, j: nat, id: nat)
    requires SoundRun(actions) && j <= |actions|
    ensures Approves(StatusAt(actions, j, id)) <==> exists k: nat :: k < j && EffectiveAudit(actions, k, id, "approve")
  {
    if j == 0 {
      assert actions[..0] == [];
    } else {
      ApprovalsBefore(actions, j - 1, id);
      StepOfAny(actions, j - 1, id);
    }
  }

  lemma {:induction false} RejectionsBefore(actions: seq<Action>, j: nat, id: nat)
    requires SoundRun(actions) && j <= |actions|
    ensures StatusAt(actions, j, id) == Some(Rejected)
            <==> exists k: nat :: k < j && EffectiveAudit(actions, k, id, "reject")
  {
    if j == 0 {
      assert actions[..0] == [];
    } else {
      RejectionsBefore(actions, j - 1, id);
      StepOfAny(actions, j - 1, id);
    }
  }

  /** A payroll is approved, being paid or paid if and only if an effective audit with "approve" came
      before, and rejected if and only if one with "reject" did; never both. */
  lemma AuditsDecide(actions: seq<Action>, j: nat, id: nat)
    requires SoundRun(actions) && j <= |actions|
    ensures Approves(StatusAt(actions, j, id)) <==> exists k: nat :: k < j && EffectiveAudit(actions, k, id, "approve")
    ensures StatusAt(actions, j, id) == Some(Rejected)
            <==> exists k: nat :: k < j && EffectiveAudit(actions, k, id, "reject")
    ensures forall k: nat, l: nat :: k < j && l < j ==>
              !(EffectiveAudit(actions, k, id, "approve") && EffectiveAudit(actions, l, id, "reject"))
  {
    ApprovalsBefore(actions, j, id);
    RejectionsBefore(actions, j, id);
  }

  /** How a step treats the two outcomes of an audit. */
  lemma StepOfAny(actions: seq<Action>, n: nat, id: nat)
    requires SoundRun(actions) && n < |actions|
    ensures Approves(StatusAt(actions, n + 1, id))
            <==> Approves(StatusAt(actions, n, id)) || EffectiveAudit(actions, n, id, "approve")
    ensures StatusAt(actions, n + 1, id) == Some(Rejected)
            <==> StatusAt(actions, n, id) == Some(Rejected) || EffectiveAudit(actions, n, id, "reject")
  {
    RunKeepsInv(actions, n);
    if StatusAt(actions, n, id).Some? {
      assert RowOk(Run(actions[..n]).payrolls[id]);
    }
    match StatusAt(actions, n, id)
    case None => EarlyStep(actions, n, id);
    case Some(Draft) => EarlyStep(actions, n, id);
    case Some(Waiting) => AuditDecides(actions, n, id);
    case Some(Approved) => PayDecides(actions, n, id);
    case Some(Paying) => CheckDecides(actions, n, id);
    case Some(Rejected) => EndStays(actions, n, id);
    case Some(Paid) => EndStays(actions, n, id);
    case Some(Other(_)) =>
  }

  // ---- who paid, and when -----------------------------------------------------------------------------

  predicate InPayment(st: Option<Status>) {
    st == Some(Paying) || st == Some(Paid)
  }

  lemma PayStep(actions: seq<Action>, n: nat, id: nat)
    requires SoundRun(actions) && n < |actions|
    ensures InPayment(StatusAt(actions, n + 1, id))
            <==> InPayment(StatusAt(actions, n, id)) || EffectivePay(actions, n, id)
    ensures InPayment(StatusAt(actions, n, id)) ==>
              && RowAt(actions, n + 1, id).txHash == RowAt(actions, n, id).txHash
              && RowAt(actions, n + 1, id).chain == RowAt(actions, n, id).chain
  {
    RunKeepsInv(actions, n);
    if StatusAt(actions, n, id).Some? {
      assert RowOk(Run(actions[..n]).payrolls[id]);
      SoundStepEvolves(actions, n);
      assert RowEvolves(Run(actions[..n]), Run(actions[..n + 1]), id);
    }
    match StatusAt(actions, n, id)
    case None => EarlyStep(actions, n, id);
    case Some(Draft) => EarlyStep(actions, n, id);
    case Some(Waiting) => AuditDecides(actions, n, id);
    case Some(Approved) => PayDecides(actions, n, id);
    case Some(Paying) => CheckDecides(actions, n, id);
    case Some(Rejected) => EndStays(actions, n, id);
    case Some(Paid) => EndStays(actions, n, id);
    case Some(Other(_)) =>
  }

  lemma {:induction false} PaymentsBefore(actions: seq<Action>, j: nat, id: nat)
    requires SoundRun(actions) && j <= |actions|
    ensures InPayment(StatusAt(actions, j, id)) <==> exists k: nat :: k < j && EffectivePay(actions, k, id)
  {
    if j == 0 {
      assert actions[..0] == [];
    } else {
      PaymentsBefore(actions, j - 1, id);
      PayStep(actions, j - 1, id);
    }
  }

  /** What a payment wrote stays. */
  lemma {:induction false} PaymentStays(actions: seq<Action>, k: nat, j: nat, id: nat)
    requires SoundRun(actions) && k < j <= |actions| && EffectivePay(actions, k, id)
    ensures InPayment(StatusAt(actions, j, id))
    ensures RowAt(actions, j, id).txHash == actions[k].txHash
    ensures RowAt(actions, j, id).chain == actions[k].settings.chain
    decreases j
  {
    if j == k + 1 {
      PayDecides(actions, k, id);
    } else {
      PaymentStays(actions, k, j - 1, id);
      PayStep(actions, j - 1, id);
    }
  }

  /** A payroll is being paid or paid if and only if one effective payment came before; its
      transaction and chain are those of that payment. */
  lemma PaymentsDecide(actions: seq<Action>, j: nat, id: nat)
    requires SoundRun(actions) && j <= |actions|
    ensures InPayment(StatusAt(actions, j, id)) <==> exists k: nat :: k < j && EffectivePay(actions, k, id)
    ensures forall k: nat :: k < j && EffectivePay(actions, k, id) ==>
              && StatusAt(actions, j, id).Some?
              && RowAt(actions, j, id).txHash == actions[k].txHash
              && RowAt(actions, j, id).chain == actions[k].settings.chain
    ensures forall k: nat, l: nat :: k < l < j ==> !(EffectivePay(actions, k, id) && EffectivePay(actions, l, id))
  {
    PaymentsBefore(actions, j, id);
    forall k: nat | k < j && EffectivePay(actions, k, id)
      ensures StatusAt(actions, j, id).Some? && RowAt(actions, j, id).txHash == actions[k].txHash
              && RowAt(actions, j, id).chain == actions[k].settings.chain {
      PaymentStays(actions, k, j, id);
    }
    forall k: nat, l: nat | k < l < j ensures !(EffectivePay(actions, k, id) && EffectivePay(actions, l, id)) {
      if EffectivePay(actions, k, id) {
        PaymentStays(actions, k, l, id);
      }
    }
  }

  lemma CheckStep(actions: seq<Action>, n: nat, id: nat)
    requires SoundRun(actions) && n < |actions|
    ensures StatusAt(actions, n + 1, id) == Some(Paid)
            <==> StatusAt(actions, n, id) == Some(Paid) || EffectiveCheck(actions, n, id)
    ensures StatusAt(actions, n, id) == Some(Paid) ==>
              RowAt(actions, n + 1, id).payTime == RowAt(actions, n, id).payTime
  {
    RunKeepsInv(actions, n);
    if StatusAt(actions, n, id).Some? {
      assert RowOk(Run(actions[..n]).payrolls[id]);
      SoundStepEvolves(actions, n);
      assert RowEvolves(Run(actions[..n]), Run(actions[..n + 1]), id);
    }
    match StatusAt(actions, n, id)
    case None => EarlyStep(actions, n, id);
    case Some(Draft) => EarlyStep(actions, n, id);
    case Some(Waiting) => AuditDecides(actions, n, id);
    case Some(Approved) => PayDecides(actions, n, id);
    case Some(Paying) => CheckDecides(actions, n, id);
    case Some(Rejected) => EndStays(actions, n, id);
    case Some(Paid) => EndStays(actions, n, id);
    case Some(Other(_)) =>
  }

  lemma {:induction false} ChecksBefore(actions: seq<Action>, j: nat, id: nat)
    requires SoundRun(actions) && j <= |actions|
    ensures StatusAt(actions, j, id) == Some(Paid) <==> exists k: nat :: k < j && EffectiveCheck(actions, k, id)
  {
    if j == 0 {
      assert actions[..0] == [];
    } else {
      ChecksBefore(actions, j - 1, id);
      CheckStep(actions, j - 1, id);
    }
  }

  lemma {:induction false} CheckStays(actions: seq<Action>, k: nat, j: nat, id: nat)
    requires SoundRun(actions) && k < j <= |actions| && EffectiveCheck(actions, k, id)
    ensures StatusAt(actions, j, id) == Some(Paid) && RowAt(actions, j, id).payTime == Some(actions[k].now)
    decreases j
  {
    if j == k + 1 {
      CheckDecides(actions, k, id);
    } else {
      CheckStays(actions, k, j - 1, id);
      CheckStep(actions, j - 1, id);
    }
  }

  /** A payroll is paid if and only if one effective status check came before; its pay time is the
      time of that check. */
  lemma ChecksDecide(actions: seq<Action>, j: nat, id: nat)
    requires SoundRun(actions) && j <= |actions|
    ensures StatusAt(actions, j, id) == Some(Paid) <==> exists k: nat :: k < j && EffectiveCheck(actions, k, id)
    ensures forall k: nat :: k < j && EffectiveCheck(actions, k, id) ==>
              StatusAt(actions, j, id).Some? && RowAt(actions, j, id).payTime == Some(actions[k].now)
    ensures forall k: nat, l: nat :: k < l < j ==> !(EffectiveCheck(actions, k, id) && EffectiveCheck(actions, l, id))
  {
    ChecksBefore(actions, j, id);
    forall k: nat | k < j && EffectiveCheck(actions, k, id)
      ensures StatusAt(actions, j, id).Some? && RowAt(actions, j, id).payTime == Some(actions[k].now) {
      CheckStays(actions, k, j, id);
    }
    forall k: nat, l: nat | k < l < j ensures !(EffectiveCheck(actions, k, id) && EffectiveCheck(actions, l, id)) {
      if EffectiveCheck(actions, k, id) {
        CheckStays(actions, k, l, id);
      }
    }
  }

  // ---- what was ordered -----------------------------------------------------------------------------

  /** Step c created the payroll. */
  predicate Creates(actions: seq<Action>, c: nat, id: nat) {
    && c < |actions| && actions[c].Create? && !actions[c].saveFails
    && StatusAt(actions, c, id) == None && StatusAt(actions, c + 1, id).Some?
  }

  /** Step c was an update of the payroll that took effect. */
  predicate EffectiveUpdate(actions: seq<Action>, c: nat, id: nat) {
    && c < |actions| && actions[c].Update? && !actions[c].saveFails && actions[c].req.id == id
    && StatusAt(actions, c, id) == Some(Draft) && ValidYearMonth(actions[c].req.month)
  }

  /** One ordered item as it stands in the payslip table; only an update carries wallet ids. */
  predicate IsSlipOf(slip: Payslip, id: nat, item: Item, updated: bool) {
    && slip.payrollId == id && slip.userId == item.userId && slip.address == item.address && slip.amount == item.amount
    && slip.walletType == item.walletType && slip.walletChain == item.walletChain
    && slip.walletId == (if updated then item.walletId else 0) && slip.flag == 0 && slip.receiptHash == ""
  }

  /** These payslips are the items, in consecutive rows, minus the deleted ones. */
  ghost predicate SlipsAre(slips: map<nat, Payslip>, id: nat, items: seq<Item>, base: nat, updated: bool,
                           gone: set<nat>) {
    && (forall k: nat :: k in slips <==> base <= k < base + |items| && k !in gone)
    && (forall k <- slips :: base <= k < base + |items| && IsSlipOf(slips[k], id, items[k - base], updated))
  }

  /** The payslips of one payroll. */
  ghost function Own(s: Tables, id: nat): map<nat, Payslip> {
    SlipsOf(s.payslips, id)
  }

  lemma NoSlipsYet(s: Tables)
    requires Inv(s)
    ensures forall k <- s.payslips :: s.payslips[k].payrollId != s.nextPayroll && k < s.nextPayslip
  {
    forall k <- s.payslips ensures s.payslips[k].payrollId != s.nextPayroll {
      assert s.payslips[k].payrollId in s.payrolls;
    }
  }

  lemma NewSlipsAre(next: nat, id: nat, items: seq<Item>, updated: bool)
    ensures SlipsAre(NewSlips(next, id, items, updated), id, items, next, updated, {})
  {
    NewSlipsRows(next, id, items, updated);
  }

  lemma OwnIsNew(slips: map<nat, Payslip>, next: nat, id: nat, items: seq<Item>, updated: bool)
    requires forall k <- slips :: k < next && slips[k].payrollId != id
    ensures SlipsOf(slips + NewSlips(next, id, items, updated), id) == NewSlips(next, id, items, updated)
  {
    NewSlipsRows(next, id, items, updated);
  }

  lemma CreatedSlips(s: Tables, req: Request, user: nat)
    requires Inv(s)
    ensures SlipsAre(Own(Created(s, req, user), s.nextPayroll), s.nextPayroll, req.items, s.nextPayslip, false, {})
  {
    NoSlipsYet(s);
    OwnIsNew(s.payslips, s.nextPayslip, s.nextPayroll, req.items, false);
    NewSlipsAre(s.nextPayslip, s.nextPayroll, req.items, false);
  }

  lemma UpdatedSlips(s: Tables, req: Request)
    requires Inv(s) && AcceptsUpdate(s, req)
    ensures SlipsAre(Own(Updated(s, req), req.id), req.id, req.items, s.nextPayslip, true, {})
  {
    OwnIsNew(s.payslips - SlipsOf(s.payslips, req.id).Keys, s.nextPayslip, req.id, req.items, true);
    NewSlipsAre(s.nextPayslip, req.id, req.items, true);
  }

  /** The payslip a handler call deletes. */
  function GoneOf(a: Action): set<nat> {
    match a
    case StaffDelete(k, saveFails) => if saveFails || k == 0 then {} else {k}
    case _ => {}
  }

  /** The payslips a stretch of a run deletes. */
  function GoneBy(actions: seq<Action>, from: nat, to: nat): set<nat>
    requires to <= |actions|
  {
    if to <= from then {} else GoneBy(actions, from, to - 1) + GoneOf(actions[to - 1])
  }

  lemma {:induction false} GoneIsDeleted(actions: seq<Action>, from: nat, to: nat, slip: nat)
    requires to <= |actions|
    ensures slip in GoneBy(actions, from, to)
            <==> slip != 0 && exists k: nat :: from <= k < to && actions[k] == StaffDelete(slip, false)
  {
    if to <= from {
    } else {
      GoneIsDeleted(actions, from, to - 1, slip);
    }
  }

  lemma CreateLeavesSlips(s: Tables, req: Request, user: nat, id: nat)
    requires Inv(s) && id in s.payrolls
    ensures Own(Created(s, req, user), id) == Own(s, id)
  {
    OtherSlips(s.payslips, s.nextPayslip, s.nextPayroll, req.items, false, id);
  }

  lemma UpdateLeavesSlips(s: Tables, req: Request, id: nat)
    requires Inv(s) && AcceptsUpdate(s, req) && id != req.id
    ensures Own(Updated(s, req), id) == Own(s, id)
  {
    var kept := s.payslips - SlipsOf(s.payslips, req.id).Keys;
    OtherSlips(kept, s.nextPayslip, req.id, req.items, true, id);
    assert SlipsOf(kept, id) == SlipsOf(s.payslips, id);
  }

  lemma DeleteTakesSlip(s: Tables, slip: nat, id: nat)
    ensures Own(s.(payslips := s.payslips - {slip}), id) == Own(s, id) - {slip}
  {
  }

  lemma OthersLeaveSlips(s: Tables, a: Action)
    requires !a.Create? && !a.Update? && !a.StaffDelete?
    ensures Step(s, a).payslips == s.payslips && Step(s, a).nextPayslip == s.nextPayslip
  {
  }

  lemma SlipsUntouched(s: Tables, a: Action, id: nat)
    requires Inv(s) && id in s.payrolls && !a.StaffDelete?
    requires a.Update? && !a.saveFails && AcceptsUpdate(s, a.req) ==> a.req.id != id
    ensures Own(Step(s, a), id) == Own(s, id) && s.nextPayslip <= Step(s, a).nextPayslip
  {
    match a
    case Create(req, user, saveFails) =>
      if !saveFails && AcceptsCreate(s, req) {
        CreateLeavesSlips(s, req, user, id);
      }
    case Update(req, saveFails) =>
      if !saveFails && AcceptsUpdate(s, req) {
        UpdateLeavesSlips(s, req, id);
      }
    case _ => OthersLeaveSlips(s, a);
  }

  /** A handler call that is not an effective update of the payroll takes from its payslips the one
      it deletes. */
  lemma SlipsKept(s: Tables, a: Action, id: nat)
    requires Inv(s) && id in s.payrolls
    requires a.Update? && !a.saveFails && AcceptsUpdate(s, a.req) ==> a.req.id != id
    ensures Own(Step(s, a), id) == Own(s, id) - GoneOf(a)
    ensures s.nextPayslip <= Step(s, a).nextPayslip
  {
    if a.StaffDelete? {
      DeleteTakesSlip(s, a.payslipId, id);
      NoneGone(Own(s, id));
    } else {
      SlipsUntouched(s, a, id);
      NoneGone(Own(s, id));
    }
  }

  lemma NoneGone(slips: map<nat, Payslip>)
    ensures slips - {} == slips
  {
  }

  lemma SlipsStep(actions: seq<Action>, n: nat, id: nat)
    requires SoundRun(actions) && n < |actions| && StatusAt(actions, n, id).Some? && !EffectiveUpdate(actions, n, id)
    ensures Own(Run(actions[..n + 1]), id) == Own(Run(actions[..n]), id) - GoneOf(actions[n])
    ensures StatusAt(actions, n + 1, id).Some?
  {
    RunKeepsInv(actions, n);
    NextState(actions, n);
    SlipsKept(Run(actions[..n]), actions[n], id);
    StatusAdvances(actions, n, id);
  }

  lemma FewerSlips(slips: map<nat, Payslip>, id: nat, items: seq<Item>, base: nat, updated: bool, gone: set<nat>,
                   more: set<nat>)
    requires SlipsAre(slips, id, items, base, updated, gone)
    ensures SlipsAre(slips - more, id, items, base, updated, gone + more)
  {
  }

  lemma SlipsAreStep(actions: seq<Action>, n: nat, id: nat, items: seq<Item>, base: nat, updated: bool, gone: set<nat>,
                     gone': set<nat>)
    requires SoundRun(actions) && n < |actions| && StatusAt(actions, n, id).Some? && !EffectiveUpdate(actions, n, id)
    requires SlipsAre(Own(Run(actions[..n]), id), id, items, base, updated, gone) && gone' == gone + GoneOf(actions[n])
    ensures SlipsAre(Own(Run(actions[..n + 1]), id), id, items, base, updated, gone')
    ensures StatusAt(actions, n + 1, id).Some?
  {
    SlipsStep(actions, n, id);
    FewerSlips(Own(Run(actions[..n]), id), id, items, base, updated, gone, GoneOf(actions[n]));
  }

  lemma {:induction false} SlipsStay(actions: seq<Action>, from: nat, j: nat, id: nat, items: seq<Item>, base: nat,
                                     updated: bool)
    requires SoundRun(actions) && from <= j <= |actions| && StatusAt(actions, from, id).Some?
    requires SlipsAre(Own(Run(actions[..from]), id), id, items, base, updated, {})
    requires forall k: nat :: from <= k < j ==> !EffectiveUpdate(actions, k, id)
    ensures SlipsAre(Own(Run(actions[..j]), id), id, items, base, updated, GoneBy(actions, from, j))
    ensures StatusAt(actions, j, id).Some?
    decreases j
  {
    if j == from {
    } else {
      SlipsStay(actions, from, j - 1, id, items, base, updated);
      SlipsAreStep(actions, j - 1, id, items, base, updated, GoneBy(actions, from, j - 1), GoneBy(actions, from, j));
    }
  }

  /** From the creation, or an effective update, up to the next effective update, the payslips of a
      payroll are the items of that request, minus the deleted ones. */
  lemma PayslipsAreItems(actions: seq<Action>, c: nat, j: nat, id: nat)
    requires SoundRun(actions) && c < j <= |actions| && (Creates(actions, c, id) || EffectiveUpdate(actions, c, id))
    requires forall k: nat :: c < k < j ==> !EffectiveUpdate(actions, k, id)
    ensures SlipsAre(Own(Run(actions[..j]), id), id, actions[c].req.items, Run(actions[..c]).nextPayslip,
                     actions[c].Update?, GoneBy(actions, c + 1, j))
  {
    FirstSlips(actions, c, id);
    SlipsStay(actions, c + 1, j, id, actions[c].req.items, Run(actions[..c]).nextPayslip, actions[c].Update?);
  }

  lemma FirstSlips(actions: seq<Action>, c: nat, id: nat)
    requires SoundRun(actions) && c < |actions| && (Creates(actions, c, id) || EffectiveUpdate(actions, c, id))
    ensures SlipsAre(Own(Run(actions[..c + 1]), id), id, actions[c].req.items, Run(actions[..c]).nextPayslip,
                     actions[c].Update?, {})
    ensures StatusAt(actions, c + 1, id).Some?
  {
    var s := Run(actions[..c]);
    RunKeepsInv(actions, c);
    NextState(actions, c);
    match actions[c]
    case Create(req, user, _) => CreatedSlips(s, req, user);
    case Update(req, _) => UpdatedSlips(s, req);
    case _ =>
  }

  // ---- month, total, creator, flag and notes --------------------------------------------------------

  predicate EffectiveDelete(actions: seq<Action>, k: nat, id: nat) {
    && k < |actions| && actions[k].Delete? && !actions[k].saveFails && actions[k].req.id == id
    && StatusAt(actions, k, id) == Some(Draft) && ValidYearMonth(actions[k].req.month)
  }

  lemma ColumnsKept(s: Tables, a: Action, id: nat)
    requires Inv(s) && id in s.payrolls
    ensures id in Step(s, a).payrolls && Step(s, a).payrolls[id].creator == s.payrolls[id].creator
    ensures Step(s, a).payrolls[id].flag
            == if a.Delete? && !a.saveFails && a.req.id == id && s.payrolls[id].status == Draft
                  && ValidYearMonth(a.req.month)
               then 1 else s.payrolls[id].flag
    ensures !(a.Update? && !a.saveFails && a.req.id == id && s.payrolls[id].status == Draft
              && ValidYearMonth(a.req.month)) ==>
              && Step(s, a).payrolls[id].month == s.payrolls[id].month
              && Step(s, a).payrolls[id].total == s.payrolls[id].total
  {
  }

  /** What one handler call does to these columns of a payroll. */
  lemma ColumnsStep(actions: seq<Action>, n: nat, id: nat)
    requires SoundRun(actions) && n < |actions| && StatusAt(actions, n, id).Some?
    ensures StatusAt(actions, n + 1, id).Some?
    ensures RowAt(actions, n + 1, id).creator == RowAt(actions, n, id).creator
    ensures RowAt(actions, n + 1, id).flag == if EffectiveDelete(actions, n, id) then 1 else RowAt(actions, n, id).flag
    ensures !EffectiveUpdate(actions, n, id) ==>
              RowAt(actions, n + 1, id).month == RowAt(actions, n, id).month
              && RowAt(actions, n + 1, id).total == RowAt(actions, n, id).total
  {
    RunKeepsInv(actions, n);
    NextState(actions, n);
    ColumnsKept(Run(actions[..n]), actions[n], id);
  }

  lemma FirstColumns(actions: seq<Action>, c: nat, id: nat)
    requires SoundRun(actions) && c < |actions| && (Creates(actions, c, id) || EffectiveUpdate(actions, c, id))
    ensures StatusAt(actions, c + 1, id).Some?
    ensures RowAt(actions, c + 1, id).month == actions[c].req.month
    ensures RowAt(actions, c + 1, id).total == actions[c].req.total
    ensures Creates(actions, c, id) ==>
              RowAt(actions, c + 1, id).creator == actions[c].user && RowAt(actions, c + 1, id).flag == 0
  {
    RunKeepsInv(actions, c);
    NextState(actions, c);
  }

  /** Month and total are those of the request that last wrote the payroll. */
  lemma {:induction false} MonthAndTotal(actions: seq<Action>, c: nat, j: nat, id: nat)
    requires SoundRun(actions) && c < j <= |actions| && (Creates(actions, c, id) || EffectiveUpdate(actions, c, id))
    requires forall k: nat :: c < k < j ==> !EffectiveUpdate(actions, k, id)
    ensures StatusAt(actions, j, id).Some?
    ensures RowAt(actions, j, id).month == actions[c].req.month && RowAt(actions, j, id).total == actions[c].req.total
    decreases j
  {
    if j == c + 1 {
      FirstColumns(actions, c, id);
    } else {
      MonthAndTotal(actions, c, j - 1, id);
      ColumnsStep(actions, j - 1, id);
    }
  }

  ghost predicate DeletedBetween(actions: seq<Action>, c: nat, j: nat, id: nat) {
    exists k: nat :: c < k < j && EffectiveDelete(actions, k, id)
  }

  lemma DeletedNext(actions: seq<Action>, c: nat, j: nat, id: nat)
    requires c < j
    ensures DeletedBetween(actions, c, j + 1, id)
            <==> DeletedBetween(actions, c, j, id) || EffectiveDelete(actions, j, id)
  {
    if k: nat :| c < k < j + 1 && EffectiveDelete(actions, k, id) {
      assert k < j || k == j;
    }
  }

  ghost predicate FlagTells(actions: seq<Action>, c: nat, j: nat, id: nat)
    requires j <= |actions|
  {
    && StatusAt(actions, j, id).Some? && RowAt(actions, j, id).flag in {0, 1}
    && (RowAt(actions, j, id).flag == 1 <==> DeletedBetween(actions, c, j, id))
  }

  lemma FlagStep(actions: seq<Action>, c: nat, n: nat, id: nat)
    requires SoundRun(actions) && c < n < |actions| && FlagTells(actions, c, n, id)
    ensures FlagTells(actions, c, n + 1, id) && RowAt(actions, n + 1, id).creator == RowAt(actions, n, id).creator
  {
    ColumnsStep(actions, n, id);
    DeletedNext(actions, c, n, id);
  }

  /** The creator is the user of the creating call, and the flag is set exactly by an effective delete. */
  lemma {:induction false} CreatorAndFlag(actions: seq<Action>, c: nat, j: nat, id: nat)
    requires SoundRun(actions) && c < j <= |actions| && Creates(actions, c, id)
    ensures FlagTells(actions, c, j, id) && RowAt(actions, j, id).creator == actions[c].user
    decreases j
  {
    if j == c + 1 {
      FirstColumns(actions, c, id);
    } else {
      CreatorAndFlag(actions, c, j - 1, id);
      FlagStep(actions, c, j - 1, id);
    }
  }

  predicate EffectiveSubmit(actions: seq<Action>, k: nat, id: nat) {
    && k < |actions| && actions[k].Submit? && !actions[k].saveFails && actions[k].req.id == id
    && StatusAt(actions, k, id) == Some(Draft) && StatusAt(actions, k + 1, id) == Some(Waiting)
  }

  /** A submission or an audit that took effect, with a note. */
  predicate Notes(actions: seq<Action>, k: nat, id: nat) {
    || EffectiveSubmit(actions, k, id)
    || EffectiveAudit(actions, k, id, "approve")
    || EffectiveAudit(actions, k, id, "reject")
  }

  ghost predicate Extends(old_: string, new_: string) {
    |old_| <= |new_| && new_[..|old_|] == old_
  }

  ghost predicate EndsWith(s: string, end: string) {
    |end| <= |s| && s[|s| - |end|..] == end
  }

  lemma AppendedKeepsBoth(old_: string, extra: string, alwaysBreak: bool)
    ensures Extends(old_, AppendedDesc(old_, extra, alwaysBreak))
    ensures EndsWith(AppendedDesc(old_, extra, alwaysBreak), extra)
    ensures extra != "" && (old_ != "" || alwaysBreak) ==>
              |AppendedDesc(old_, extra, alwaysBreak)| == |old_| + 1 + |extra|
              && AppendedDesc(old_, extra, alwaysBreak)[|old_|] == '\n'
    ensures extra == "" || (old_ == "" && !alwaysBreak) ==>
              |AppendedDesc(old_, extra, alwaysBreak)| == |old_| + |extra|
  {
  }

  lemma DescKept(s: Tables, a: Action, id: nat)
    requires Inv(s) && id in s.payrolls
    ensures id in Step(s, a).payrolls
    ensures !a.Submit? && !a.Audit? ==> Step(s, a).payrolls[id].desc == s.payrolls[id].desc
    ensures a.Submit? || a.Audit? ==>
              || Step(s, a).payrolls[id] == s.payrolls[id]
              || (Step(s, a).payrolls[id].status != s.payrolls[id].status
                  && Step(s, a).payrolls[id].desc == AppendedDesc(s.payrolls[id].desc, a.req.desc, a.Submit?))
  {
  }

  /** Notes are only appended; the note of a call that took effect comes last. */
  lemma NotesStep(actions: seq<Action>, n: nat, id: nat)
    requires SoundRun(actions) && n < |actions| && StatusAt(actions, n, id).Some?
    ensures StatusAt(actions, n + 1, id).Some? && Extends(RowAt(actions, n, id).desc, RowAt(actions, n + 1, id).desc)
    ensures Notes(actions, n, id) ==> EndsWith(RowAt(actions, n + 1, id).desc, actions[n].req.desc)
  {
    RunKeepsInv(actions, n);
    NextState(actions, n);
    DescKept(Run(actions[..n]), actions[n], id);
    if StatusAt(actions, n, id) == Some(Waiting) {
      AuditDecides(actions, n, id);
    }
    if actions[n].Submit? || actions[n].Audit? {
      AppendedKeepsBoth(RowAt(actions, n, id).desc, actions[n].req.desc, actions[n].Submit?);
    }
  }

  lemma ExtendsOn(a: string, b: string, c: string)
    requires Extends(a, b) && Extends(b, c)
    ensures Extends(a, c)
  {
    assert c[..|a|] == c[..|b|][..|a|];
  }

  lemma {:induction false} DescExtends(actions: seq<Action>, i: nat, j: nat, id: nat)
    requires SoundRun(actions) && i <= j <= |actions| && StatusAt(actions, i, id).Some?
    ensures StatusAt(actions, j, id).Some? && Extends(RowAt(actions, i, id).desc, RowAt(actions, j, id).desc)
    decreases j
  {
    if i == j {
    } else {
      DescExtends(actions, i, j - 1, id);
      NotesStep(actions, j - 1, id);
      ExtendsOn(RowAt(actions, i, id).desc, RowAt(actions, j - 1, id).desc, RowAt(actions, j, id).desc);
    }
  }

  /** A note stays where it was written. */
  lemma NoteIsKept(actions: seq<Action>, k: nat, j: nat, id: nat)
    requires SoundRun(actions) && k < j <= |actions| && Notes(actions, k, id)
    ensures StatusAt(actions, k + 1, id).Some? && StatusAt(actions, j, id).Some?
    ensures EndsWith(RowAt(actions, k + 1, id).desc, actions[k].req.desc)
    ensures Extends(RowAt(actions, k + 1, id).desc, RowAt(actions, j, id).desc)
  {
    NotesStep(actions, k, id);
    DescExtends(actions, k + 1, j, id);
  }

  // ---- when a payroll may be created or submitted ---------------------------------------------------

  /** A creation takes effect if and only if the month is a month and every payroll of that month is
      rejected or paid. */
  lemma CreateDecides(actions: seq<Action>, n: nat, req: Request, user: nat)
    requires SoundRun(actions) && n < |actions| && actions[n] == Create(req, user, false)
    ensures var s := Run(actions[..n]);
            Creates(actions, n, s.nextPayroll)
            <==> ValidYearMonth(req.month)
                 && forall i <- s.payrolls ::
                      s.payrolls[i].month == req.month ==> s.payrolls[i].status in {Rejected, Paid}
  {
    RunKeepsInv(actions, n);
    NextState(actions, n);
  }

  /** A submission takes effect if and only if the payroll has payslips, all with hex addresses. */
  lemma SubmitDecides(actions: seq<Action>, n: nat, id: nat)
    requires SoundRun(actions) && n < |actions| && StatusAt(actions, n, id) == Some(Draft)
    requires actions[n].Submit? && !actions[n].saveFails && actions[n].req.id == id
    ensures var s := Run(actions[..n]);
            EffectiveSubmit(actions, n, id)
            <==> (exists k :: k in s.payslips && s.payslips[k].payrollId == id)
                 && forall k <- s.payslips :: s.payslips[k].payrollId == id ==> IsHexAddress(s.payslips[k].address)
  {
    var s := Run(actions[..n]);
    NextState(actions, n);
    if k :| k in s.payslips && s.payslips[k].payrollId == id {
      assert k in SlipsOf(s.payslips, id);
    } else {
      assert SlipsOf(s.payslips, id) == map[];
    }
  }

  /** Every address text a wallet can have is an acceptable payslip address. */
  lemma WalletTextIsAccepted(a: seq<nat>, upper: nat -> bool)
    requires IsAddress(a)
    ensures IsHexAddress(ChecksumText(a, upper)) && IsHexAddress(CasedText(HexEncode(a), upper))
  {
    var t := CasedText(HexEncode(a), upper);
    HexDigitsOnly(a);
    CasedDigits(HexEncode(a), upper);
    assert ChecksumText(a, upper)[2..] == t;
    forall i | 0 <= i < |t| ensures CharDigit(t[i], 16).Some? {
      assert CharDigit(t[i], 16) == CharDigit(HexEncode(a)[i], 16);
    }
    assert CharDigit('x', 16).None? && CharDigit('X', 16).None?;
    assert TrimHexPrefix(t) == t;
  }

  /** And every acceptable payslip address spells twenty bytes. */
  lemma AcceptedTextIsAnAddress(s: string)
    requires IsHexAddress(s)
    ensures IsAddress(FromHex(s)) && HexToAddress(s) == FromHex(s)
  {
    var t := TrimHexPrefix(s);
    assert forall i :: 0 <= i < |t| ==> CharDigit(t[i], 16).Some?;
    PairsCount(t, 20);
    assert EvenDigits(t) == t;
    assert FromHex(s)[|FromHex(s)| - 20..] == FromHex(s);
  }

  /** Months are written with four digits for the year and two for the month. */
  lemma KnownMonths()
    ensures ValidYearMonth("202601") && ValidYearMonth("202609") && ValidYearMonth("202610") && ValidYearMonth("202612")
    ensures !ValidYearMonth("202600") && !ValidYearMonth("202613") && !ValidYearMonth("202620")
    ensures !ValidYearMonth("2026-1") && !ValidYearMonth("20261") && !ValidYearMonth("2026012")
  {
    assert CharDigit('-', 10).None?;
    assert CharDigit("2026-1"[4], 10).None?;
  }
}
