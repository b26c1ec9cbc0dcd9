/** The payroll handlers over the payroll and payslip tables. Each handler is one atomic step. */
module Payroll {
  import opened Positional
  import opened HexText

  /** Status texts; anything else a request may carry is Other. */
  datatype Status = Draft | Waiting | Approved | Rejected | Paying | Paid | Other(text: string)

  datatype PayrollRow = PayrollRow(month: string, total: int, flag: nat, creator: nat, status: Status, desc: string,
                                   payTime: Option<nat>, txHash: string, chain: string)

  datatype Payslip = Payslip(payrollId: nat, userId: nat, walletId: nat, address: string, walletType: string,
                             walletChain: string, amount: int, flag: nat, receiptHash: string)

  datatype Item = Item(userId: nat, walletId: nat, address: string, walletType: string, walletChain: string,
                       amount: int)

  datatype Tables = Tables(payrolls: map<nat, PayrollRow>, payslips: map<nat, Payslip>, nextPayroll: nat,
                           nextPayslip: nat)

  datatype Request = Request(id: nat, month: string, total: int, status: Status, desc: string, items: seq<Item>,
                             op: string)

  datatype Settings = Settings(chain: string, contract: string, token: string)

  /** What the chain says about a transaction. */
  datatype Receipt = Unavailable | Pending | Failed | Confirmed

  predicate ValidYearMonth(s: string) {
    |s| == 6 && IsNumeral(s, 10)
    && ((s[4] == '0' && s[5] != '0') || (s[4] == '1' && '0' <= s[5] <= '2'))
  }

  predicate IsHexAddress(s: string) {
    |TrimHexPrefix(s)| == 40 && IsNumeral(TrimHexPrefix(s), 16)
  }

  predicate Active(st: Status) {
    st != Rejected && st != Paid
  }

  function SlipOf(payrollId: nat, item: Item, keepWallet: bool): Payslip {
    Payslip(payrollId, item.userId, if keepWallet then item.walletId else 0, item.address, item.walletType,
            item.walletChain, item.amount, 0, "")
  }

  /** The rows inserted for a list of items, with consecutive ids. */
  function NewSlips(next: nat, payrollId: nat, items: seq<Item>, keepWallet: bool): map<nat, Payslip> {
    if items == [] then map[]
    else
      var last := |items| - 1;
      NewSlips(next, payrollId, items[..last], keepWallet)[next + last := SlipOf(payrollId, items[last], keepWallet)]
  }

  lemma {:induction false} NewSlipsRows(next: nat, payrollId: nat, items: seq<Item>, keepWallet: bool)
    ensures forall k: nat :: k in NewSlips(next, payrollId, items, keepWallet) <==> next <= k < next + |items|
    ensures forall k: nat :: k in NewSlips(next, payrollId, items, keepWallet) ==>
              NewSlips(next, payrollId, items, keepWallet)[k] == SlipOf(payrollId, items[k - next], keepWallet)
  {
    if items == [] {
    } else {
      NewSlipsRows(next, payrollId, items[..|items| - 1], keepWallet);
    }
  }

  function SlipsOf(slips: map<nat, Payslip>, payrollId: nat): map<nat, Payslip> {
    map k | k in slips && slips[k].payrollId == payrollId :: slips[k]
  }

  function WithRow(s: Tables, id: nat, row: PayrollRow): Tables {
    s.(payrolls := s.payrolls[id := row])
  }

  /** `saveFails` stands for a database error in the handler's only write or transaction. */
  datatype Action =
    | Create(req: Request, user: nat, saveFails: bool)
    | Update(req: Request, saveFails: bool)
    | Delete(req: Request, saveFails: bool)
    | Submit(req: Request, saveFails: bool)
    | Audit(req: Request, saveFails: bool)
    | Pay(id: nat, txHash: string, settings: Settings, saveFails: bool)
    | StatusCheck(id: nat, chainKnown: bool, receipt: Receipt, now: nat, saveFails: bool)
    | StaffDelete(payslipId: nat, saveFails: bool)

  predicate AcceptsCreate(s: Tables, req: Request) {
    && ValidYearMonth(req.month)
    && forall i <- s.payrolls :: s.payrolls[i].month == req.month ==> !Active(s.payrolls[i].status)
  }

  function Created(s: Tables, req: Request, user: nat): Tables {
    var row := PayrollRow(req.month, req.total, 0, user, Draft, "", None, "", "");
    Tables(s.payrolls[s.nextPayroll := row],
           s.payslips + NewSlips(s.nextPayslip, s.nextPayroll, req.items, false),
           s.nextPayroll + 1, s.nextPayslip + |req.items|)
  }

  predicate InStatus(s: Tables, id: nat, st: Status) {
    id in s.payrolls && s.payrolls[id].status == st
  }

  predicate AcceptsUpdate(s: Tables, req: Request) {
    ValidYearMonth(req.month) && InStatus(s, req.id, Draft)
  }

  /** The update copies month, total and status from the request and replaces the payslips. */
  function Updated(s: Tables, req: Request): Tables
    requires req.id in s.payrolls
  {
    var kept := s.payslips - SlipsOf(s.payslips, req.id).Keys;
    Tables(s.payrolls[req.id := s.payrolls[req.id].(month := req.month, total := req.total, status := req.status)],
           kept + NewSlips(s.nextPayslip, req.id, req.items, true), s.nextPayroll, s.nextPayslip + |req.items|)
  }

  predicate AcceptsSubmit(s: Tables, id: nat) {
    && InStatus(s, id, Draft)
    && SlipsOf(s.payslips, id) != map[]
    && forall k <- SlipsOf(s.payslips, id) :: IsHexAddress(s.payslips[k].address)
  }

  function AppendedDesc(old_: string, extra: string, alwaysBreak: bool): string {
    if extra == "" then old_ else if old_ == "" && !alwaysBreak then extra else old_ + "\n" + extra
  }

  predicate AcceptsAudit(s: Tables, req: Request) {
    InStatus(s, req.id, Waiting) && (req.op == "approve" || req.op == "reject")
  }

  predicate ValidSettings(t: Settings) {
    t.chain != "" && t.contract != "" && t.token != ""
  }

  predicate AcceptsPay(s: Tables, id: nat, txHash: string, t: Settings) {
    id != 0 && txHash != "" && InStatus(s, id, Approved) && ValidSettings(t)
  }

  predicate AcceptsPaid(s: Tables, id: nat, chainKnown: bool, receipt: Receipt) {
    id != 0 && InStatus(s, id, Paying) && chainKnown && receipt == Confirmed
  }

  /** The effect of one handler call. */
  function Step(s: Tables, a: Action): Tables {
    if a.saveFails then s else
    match a
    case Create(req, user, _) => if AcceptsCreate(s, req) then Created(s, req, user) else s
    case Update(req, _) => if AcceptsUpdate(s, req) then Updated(s, req) else s
    case Delete(req, _) =>
      if ValidYearMonth(req.month) && InStatus(s, req.id, Draft) then
        WithRow(s, req.id, s.payrolls[req.id].(flag := 1))
      else s
    case Submit(req, _) =>
      if AcceptsSubmit(s, req.id) then
        WithRow(s, req.id, s.payrolls[req.id].(status := Waiting,
                                               desc := AppendedDesc(s.payrolls[req.id].desc, req.desc, true)))
      else s
    case Audit(req, _) =>
      if AcceptsAudit(s, req) then
        WithRow(s, req.id, s.payrolls[req.id].(status := if req.op == "approve" then Approved else Rejected,
                                               desc := AppendedDesc(s.payrolls[req.id].desc, req.desc, false)))
      else s
    case Pay(id, txHash, settings, _) =>
      if AcceptsPay(s, id, txHash, settings) then
        WithRow(s, id, s.payrolls[id].(status := Paying, txHash := txHash, chain := settings.chain))
      else s
    case StatusCheck(id, chainKnown, receipt, now, _) =>
      if AcceptsPaid(s, id, chainKnown, receipt) then
        WithRow(s, id, s.payrolls[id].(status := Paid, payTime := Some(now)))
      else s
    case StaffDelete(payslipId, _) =>
      if payslipId != 0 then s.(payslips := s.payslips - {payslipId}) else s
  }

  // ---- the handlers ---------------------------------------------------------------------------

  class Portal {
    var db: Tables

    constructor ()
      ensures db == Tables(map[], map[], 1, 1)
    {
      db := Tables(map[], map[], 1, 1);
    }

    /** Is there a payroll of this month that is neither rejected nor paid? */
    method MonthTaken(month: string) returns (taken: bool)
      ensures taken <==> exists i :: i in db.payrolls && db.payrolls[i].month == month && Active(db.payrolls[i].status)
    {
      var ids := db.payrolls.Keys;
      while ids != {}
        invariant ids <= db.payrolls.Keys
        invariant forall i <- db.payrolls.Keys - ids :: db.payrolls[i].month == month ==> !Active(db.payrolls[i].status)
      {
        var i :| i in ids;
        if db.payrolls[i].month == month && db.payrolls[i].status !in {Rejected, Paid} {
          return true;
        }
        ids := ids - {i};
      }
      return false;
    }

    method SlipRows(payrollId: nat, items: seq<Item>, keepWallet: bool) returns (slips: map<nat, Payslip>)
      ensures slips == NewSlips(db.nextPayslip, payrollId, items, keepWallet)
    {
      slips := map[];
      for n := 0 to |items|
        invariant slips == NewSlips(db.nextPayslip, payrollId, items[..n], keepWallet)
      {
        assert items[..n + 1][..n] == items[..n];
        slips := slips[db.nextPayslip + n := SlipOf(payrollId, items[n], keepWallet)];
      }
      assert items[..|items|] == items;
    }

    method PayrollCreate(req: Request, user: nat, saveFails: bool) returns (ok: bool)
      modifies this
      ensures db == Step(old(db), Create(req, user, saveFails))
      ensures ok <==> AcceptsCreate(old(db), req) && !saveFails
      ensures ok ==>
                && db.payrolls == old(db).payrolls[old(db).nextPayroll :=
                                    PayrollRow(req.month, req.total, 0, user, Draft, "", None, "", "")]
                && db.nextPayroll == old(db).nextPayroll + 1
    {
      if !ValidYearMonth(req.month) {
        return false;
      }
      var taken := MonthTaken(req.month);
      if taken || saveFails {
        return false;
      }
      var id := db.nextPayroll;
      var slips := SlipRows(id, req.items, false);
      db := Tables(db.payrolls[id := PayrollRow(req.month, req.total, 0, user, Draft, "", None, "", "")],
                   db.payslips + slips, id + 1, db.nextPayslip + |req.items|);
      return true;
    }

    method PayrollUpdate(req: Request, saveFails: bool) returns (ok: bool)
      modifies this
      ensures db == Step(old(db), Update(req, saveFails))
      ensures ok <==> AcceptsUpdate(old(db), req) && !saveFails
      ensures ok ==> req.id in old(db).payrolls
                     && db.payrolls == old(db).payrolls[req.id :=
                          old(db).payrolls[req.id].(month := req.month, total := req.total, status := req.status)]
    {
      if !ValidYearMonth(req.month) || req.id !in db.payrolls {
        return false;
      }
      var payroll := db.payrolls[req.id];
      if payroll.status != Draft || saveFails {
        return false;
      }
      payroll := payroll.(month := req.month, total := req.total, status := req.status);
      var kept := map k | k in db.payslips && db.payslips[k].payrollId != req.id :: db.payslips[k];
      assert kept == db.payslips - SlipsOf(db.payslips, req.id).Keys;
      var slips := SlipRows(req.id, req.items, true);
      db := Tables(db.payrolls[req.id := payroll], kept + slips, db.nextPayroll, db.nextPayslip + |req.items|);
      return true;
    }

    method PayrollDelete(req: Request, saveFails: bool) returns (ok: bool)
      modifies this
      ensures db == Step(old(db), Delete(req, saveFails))
      ensures ok <==> ValidYearMonth(req.month) && InStatus(old(db), req.id, Draft) && !saveFails
      ensures ok ==> db == WithRow(old(db), req.id, old(db).payrolls[req.id].(flag := 1))
    {
      if !ValidYearMonth(req.month) || req.id !in db.payrolls {
        return false;
      }
      var payroll := db.payrolls[req.id];
      if payroll.status != Draft || saveFails {
        return false;
      }
      db := WithRow(db, req.id, payroll.(flag := 1));
      return true;
    }

    method PayrollSubmit(req: Request, saveFails: bool) returns (ok: bool)
      modifies this
      ensures db == Step(old(db), Submit(req, saveFails))
      ensures ok <==> AcceptsSubmit(old(db), req.id) && !saveFails
      ensures ok ==> InStatus(db, req.id, Waiting)
    {
      if req.id !in db.payrolls {
        return false;
      }
      var payroll := db.payrolls[req.id];
      if payroll.status != Draft {
        return false;
      }
      payroll := payroll.(desc := AppendedDesc(payroll.desc, req.desc, true));
      var slips := SlipsOf(db.payslips, req.id);
      if slips == map[] {
        return false;
      }
      var rest := slips.Keys;
      while rest != {}
        invariant rest <= slips.Keys
        invariant forall k <- slips.Keys - rest :: IsHexAddress(slips[k].address)
      {
        var k :| k in rest;
        if !IsHexAddress(slips[k].address) {
          return false;
        }
        rest := rest - {k};
      }
      if saveFails {
        return false;
      }
      db := WithRow(db, req.id, payroll.(status := Waiting));
      return true;
    }

    method PayrollAudit(req: Request, saveFails: bool) returns (ok: bool)
      modifies this
      ensures db == Step(old(db), Audit(req, saveFails))
      ensures ok <==> InStatus(old(db), req.id, Waiting) && (req.op == "approve" || req.op == "reject") && !saveFails
      ensures ok ==> InStatus(db, req.id, if req.op == "approve" then Approved else Rejected)
    {
      if req.id !in db.payrolls {
        return false;
      }
      var payroll := db.payrolls[req.id];
      if payroll.status != Waiting {
        return false;
      }
      payroll := payroll.(desc := AppendedDesc(payroll.desc, req.desc, false));
      if req.op == "approve" {
        payroll := payroll.(status := Approved);
      } else if req.op == "reject" {
        payroll := payroll.(status := Rejected);
      } else {
        return false;
      }
      if saveFails {
        return false;
      }
      db := WithRow(db, req.id, payroll);
      return true;
    }

    method PayrollPay(id: nat, txHash: string, settings: Settings, saveFails: bool) returns (ok: bool)
      modifies this
      ensures db == Step(old(db), Pay(id, txHash, settings, saveFails))
      ensures ok <==> AcceptsPay(old(db), id, txHash, settings) && !saveFails
      ensures ok ==> db == WithRow(old(db), id, old(db).payrolls[id].(status := Paying, txHash := txHash,
                                                                      chain := settings.chain))
    {
      if id == 0 || txHash == "" || id !in db.payrolls {
        return false;
      }
      var payroll := db.payrolls[id];
      if payroll.status != Approved || !ValidSettings(settings) || saveFails {
        return false;
      }
      db := WithRow(db, id, payroll.(status := Paying, txHash := txHash, chain := settings.chain));
      return true;
    }

    method PayrollStatusCheck(id: nat, chainKnown: bool, receipt: Receipt, now: nat, saveFails: bool) returns (ok: bool)
      modifies this
      ensures db == Step(old(db), StatusCheck(id, chainKnown, receipt, now, saveFails))
      ensures ok <==>
              (id != 0 && InStatus(old(db), id, Paid)) || (AcceptsPaid(old(db), id, chainKnown, receipt) && !saveFails)
      ensures ok && InStatus(old(db), id, Paying) ==>
                db == WithRow(old(db), id, old(db).payrolls[id].(status := Paid, payTime := Some(now)))
    {
      if id == 0 || id !in db.payrolls {
        return false;
      }
      var payroll := db.payrolls[id];
      if payroll.status == Paid {
        return true;
      }
      if payroll.status != Paying || !chainKnown || receipt != Confirmed || saveFails {
        return false;
      }
      db := WithRow(db, id, payroll.(status := Paid, payTime := Some(now)));
      return true;
    }

    method PayrollStaffDelete(payslipId: nat, saveFails: bool) returns (ok: bool)
      modifies this
      ensures db == Step(old(db), StaffDelete(payslipId, saveFails))
      ensures ok <==> payslipId != 0 && payslipId in old(db).payslips && !saveFails
    {
      if payslipId == 0 || payslipId !in db.payslips || saveFails {
        assert payslipId !in db.payslips ==> db.payslips - {payslipId} == db.payslips;
        return false;
      }
      db := db.(payslips := db.payslips - {payslipId});
      return true;
    }
  }

  // ---- the invariant -----------------------------------------------------------------------------

  /** Payment data appears exactly with the paying status; the pay time exactly when paid. */
  predicate RowOk(p: PayrollRow) {
    && !p.status.Other?
    && (p.status == Paying || p.status == Paid ==> p.txHash != "" && p.chain != "")
    && (p.status != Paying && p.status != Paid ==> p.txHash == "" && p.chain == "")
    && (p.payTime.Some? <==> p.status == Paid)
  }

  /** At most one payroll per month is neither rejected nor paid. */
  ghost predicate MonthsUnique(payrolls: map<nat, PayrollRow>) {
    forall i, j :: i in payrolls && j in payrolls && i != j && Active(payrolls[i].status) && Active(payrolls[j].status)
                   ==> payrolls[i].month != payrolls[j].month
  }

  /** Once submitted, a payroll has only payslips with hex addresses. */
  ghost predicate SlipsOk(s: Tables) {
    forall k <- s.payslips :: s.payslips[k].payrollId in s.payrolls
                              && (s.payrolls[s.payslips[k].payrollId].status != Draft
                                 ==> IsHexAddress(s.payslips[k].address))
  }

  ghost predicate Inv(s: Tables) {
    && (forall i <- s.payrolls :: i < s.nextPayroll && RowOk(s.payrolls[i]))
    && (forall k <- s.payslips :: k < s.nextPayslip)
    && SlipsOk(s)
    && MonthsUnique(s.payrolls)
  }

  /** One allowed status change. */
  predicate Next(a: Status, b: Status) {
    (a == Draft && b == Waiting) || (a == Waiting && (b == Approved || b == Rejected))
    || (a == Approved && b == Paying) || (a == Paying && b == Paid)
  }

  /** Any number of allowed changes. */
  predicate Leads(a: Status, b: Status) {
    a == b || Next(a, b)
    || (a == Draft && !b.Other?)
    || (a == Waiting && (b == Paying || b == Paid))
    || (a == Approved && b == Paid)
  }

  /** What may happen to one payroll from one moment to a later one: the status only advances;
      after the draft month and total are frozen and payslips only disappear; payment data stays. */
  ghost predicate RowEvolves(s: Tables, s': Tables, id: nat) {
    id in s.payrolls ==>
      && id in s'.payrolls
      && Leads(s.payrolls[id].status, s'.payrolls[id].status)
      && (s.payrolls[id].status != Draft ==>
            s'.payrolls[id].month == s.payrolls[id].month && s'.payrolls[id].total == s.payrolls[id].total
            && forall k <- SlipsOf(s'.payslips, id) :: k in s.payslips && s.payslips[k] == s'.payslips[k])
      && (s.payrolls[id].status == Paying || s.payrolls[id].status == Paid ==>
            s'.payrolls[id].txHash == s.payrolls[id].txHash && s'.payrolls[id].chain == s.payrolls[id].chain)
      && (s.payrolls[id].status == Paid ==> s'.payrolls[id].payTime == s.payrolls[id].payTime)
  }

  ghost predicate Evolves(s: Tables, s': Tables) {
    forall id: nat :: RowEvolves(s, s', id)
  }

  /** One handler call: a payroll that appears is a draft, and a status changes along one arrow. */
  ghost predicate RowSteps(s: Tables, s': Tables, id: nat) {
    && RowEvolves(s, s', id)
    && (id in s.payrolls && id in s'.payrolls ==>
          s'.payrolls[id].status == s.payrolls[id].status || Next(s.payrolls[id].status, s'.payrolls[id].status))
    && (id !in s.payrolls && id in s'.payrolls ==> s'.payrolls[id].status == Draft)
  }

  ghost predicate Steps(s: Tables, s': Tables) {
    forall id: nat :: RowSteps(s, s', id)
  }

  ghost predicate MonthFree(s: Tables, id: nat, month: string) {
    forall i <- s.payrolls :: i != id && Active(s.payrolls[i].status) ==> s.payrolls[i].month != month
  }

  /** The updates that respect the workflow: the draft stays a draft, or is submitted with hex
      addresses only; and its month is not taken by another open payroll. */
  ghost predicate SoundUpdate(s: Tables, req: Request) {
    && (req.status == Draft
        || (req.status == Waiting && forall i :: 0 <= i < |req.items| ==> IsHexAddress(req.items[i].address)))
    && MonthFree(s, req.id, req.month)
  }

  ghost predicate Sound(s: Tables, a: Action) {
    a.Update? && !a.saveFails && AcceptsUpdate(s, a.req) ==> SoundUpdate(s, a.req)
  }

  lemma NewSlipsOnTop(slips: map<nat, Payslip>, next: nat, payrollId: nat, items: seq<Item>, keepWallet: bool)
    requires forall k <- slips :: k < next
    ensures forall k: nat | k < next :: k in slips + NewSlips(next, payrollId, items, keepWallet) <==> k in slips
    ensures forall k <- slips :: (slips + NewSlips(next, payrollId, items, keepWallet))[k] == slips[k]
    ensures forall k: nat | next <= k < next + |items| ::
              k in slips + NewSlips(next, payrollId, items, keepWallet)
              && (slips + NewSlips(next, payrollId, items, keepWallet))[k]
                 == SlipOf(payrollId, items[k - next], keepWallet)
    ensures forall k <- slips + NewSlips(next, payrollId, items, keepWallet) :: k < next + |items|
  {
    NewSlipsRows(next, payrollId, items, keepWallet);
  }

  /** New rows under fresh ids disturb no other payroll's payslips. */
  lemma OtherSlips(slips: map<nat, Payslip>, next: nat, payrollId: nat, items: seq<Item>, keepWallet: bool, id: nat)
    requires forall k <- slips :: k < next
    requires id != payrollId
    ensures SlipsOf(slips + NewSlips(next, payrollId, items, keepWallet), id) == SlipsOf(slips, id)
  {
    NewSlipsOnTop(slips, next, payrollId, items, keepWallet);
  }

  lemma CreateKeepsInv(s: Tables, req: Request, user: nat)
    requires Inv(s) && AcceptsCreate(s, req)
    ensures Inv(Created(s, req, user))
  {
    NewSlipsOnTop(s.payslips, s.nextPayslip, s.nextPayroll, req.items, false);
    var s' := Created(s, req, user);
    forall k <- s'.payslips
      ensures s'.payslips[k].payrollId in s'.payrolls
              && (s'.payrolls[s'.payslips[k].payrollId].status != Draft ==> IsHexAddress(s'.payslips[k].address))
    {
      assert k < s.nextPayslip ==> k in s.payslips && s.payslips[k].payrollId in s.payrolls;
    }
  }

  lemma CreateSteps(s: Tables, req: Request, user: nat)
    requires Inv(s) && AcceptsCreate(s, req)
    ensures Steps(s, Created(s, req, user))
  {
    forall id: nat ensures RowSteps(s, Created(s, req, user), id) {
      if id in s.payrolls {
        OtherSlips(s.payslips, s.nextPayslip, s.nextPayroll, req.items, false, id);
        SlipsUnchanged(s, Created(s, req, user), id);
      }
    }
  }

  /** A row that stays as it was, with the same payslips. */
  lemma SlipsUnchanged(s: Tables, s': Tables, id: nat)
    requires id in s.payrolls && id in s'.payrolls && s'.payrolls[id] == s.payrolls[id]
    requires SlipsOf(s'.payslips, id) == SlipsOf(s.payslips, id)
    ensures RowSteps(s, s', id)
  {
    forall k <- SlipsOf(s'.payslips, id) ensures k in s.payslips && s.payslips[k] == s'.payslips[k] {
      assert k in SlipsOf(s.payslips, id) && SlipsOf(s.payslips, id)[k] == s'.payslips[k];
    }
  }

  lemma UpdatedSlip(s: Tables, req: Request, k: nat)
    requires req.id in s.payrolls && (forall i <- s.payslips :: i < s.nextPayslip) && k in Updated(s, req).payslips
    ensures k < s.nextPayslip + |req.items|
    ensures k < s.nextPayslip ==>
              k in s.payslips && Updated(s, req).payslips[k] == s.payslips[k] && s.payslips[k].payrollId != req.id
    ensures k >= s.nextPayslip ==>
              Updated(s, req).payslips[k] == SlipOf(req.id, req.items[k - s.nextPayslip], true)
  {
    NewSlipsOnTop(s.payslips - SlipsOf(s.payslips, req.id).Keys, s.nextPayslip, req.id, req.items, true);
  }

  lemma UpdateKeepsSlips(s: Tables, req: Request)
    requires Inv(s) && AcceptsUpdate(s, req) && SoundUpdate(s, req)
    ensures SlipsOk(Updated(s, req))
    ensures forall k <- Updated(s, req).payslips :: k < s.nextPayslip + |req.items|
  {
    var s' := Updated(s, req);
    forall k <- s'.payslips
      ensures k < s.nextPayslip + |req.items| && s'.payslips[k].payrollId in s'.payrolls
              && (s'.payrolls[s'.payslips[k].payrollId].status != Draft ==> IsHexAddress(s'.payslips[k].address))
    {
      UpdatedSlip(s, req, k);
    }
  }

  lemma UpdateKeepsInv(s: Tables, req: Request)
    requires Inv(s) && AcceptsUpdate(s, req) && SoundUpdate(s, req)
    ensures Inv(Updated(s, req))
  {
    UpdateKeepsSlips(s, req);
    assert RowOk(s.payrolls[req.id]);
  }

  lemma UpdateSteps(s: Tables, req: Request)
    requires Inv(s) && AcceptsUpdate(s, req)
    requires req.status == Draft || req.status == Waiting
    ensures Steps(s, Updated(s, req))
  {
    var kept := s.payslips - SlipsOf(s.payslips, req.id).Keys;
    forall id: nat ensures RowSteps(s, Updated(s, req), id) {
      if id in s.payrolls && id != req.id {
        OtherSlips(kept, s.nextPayslip, req.id, req.items, true, id);
        assert SlipsOf(kept, id) == SlipsOf(s.payslips, id);
        SlipsUnchanged(s, Updated(s, req), id);
      }
    }
  }

  lemma UpdatedHasItem(s: Tables, req: Request, i: nat)
    requires AcceptsUpdate(s, req) && i < |req.items| && forall k <- s.payslips :: k < s.nextPayslip
    ensures s.nextPayslip + i in Updated(s, req).payslips
    ensures Updated(s, req).payslips[s.nextPayslip + i] == SlipOf(req.id, req.items[i], true)
  {
    NewSlipsOnTop(s.payslips - SlipsOf(s.payslips, req.id).Keys, s.nextPayslip, req.id, req.items, true);
  }

  lemma OnlyHexAddresses(s: Tables, req: Request)
    requires Inv(s) && AcceptsUpdate(s, req) && SlipsOk(Updated(s, req)) && req.status != Draft
    ensures forall i :: 0 <= i < |req.items| ==> IsHexAddress(req.items[i].address)
  {
    forall i | 0 <= i < |req.items| ensures IsHexAddress(req.items[i].address) {
      UpdatedHasItem(s, req, i);
      assert Updated(s, req).payslips[s.nextPayslip + i].payrollId == req.id;
    }
  }

  lemma OnlyFreeMonths(s: Tables, req: Request)
    requires AcceptsUpdate(s, req) && MonthsUnique(Updated(s, req).payrolls) && Active(req.status)
    ensures MonthFree(s, req.id, req.month)
  {
    forall i <- s.payrolls | i != req.id && Active(s.payrolls[i].status) ensures s.payrolls[i].month != req.month {
      var s' := Updated(s, req);
      assert s'.payrolls[i] == s.payrolls[i] && s'.payrolls[req.id].month == req.month
        && Active(s'.payrolls[req.id].status);
    }
  }

  lemma OnlySoundUpdates(s: Tables, req: Request)
    requires Inv(s) && AcceptsUpdate(s, req)
    requires Inv(Updated(s, req)) && RowSteps(s, Updated(s, req), req.id)
    ensures SoundUpdate(s, req)
  {
    assert req.status == Draft || req.status == Waiting;
    OnlyFreeMonths(s, req);
    if req.status == Waiting {
      OnlyHexAddresses(s, req);
    }
  }

  /** The condition on updates is exact: an accepted update respects the invariant and the
      workflow if and only if it is sound. */
  lemma SoundUpdateIsExact(s: Tables, req: Request)
    requires Inv(s) && AcceptsUpdate(s, req)
    ensures Inv(Updated(s, req)) && Steps(s, Updated(s, req)) <==> SoundUpdate(s, req)
  {
    if SoundUpdate(s, req) {
      UpdateKeepsInv(s, req);
      UpdateSteps(s, req);
    }
    if Inv(Updated(s, req)) && Steps(s, Updated(s, req)) {
      assert RowSteps(s, Updated(s, req), req.id);
      OnlySoundUpdates(s, req);
    }
  }

  /** An update that keeps the draft status and the month is always sound. */
  lemma PlainUpdateIsSound(s: Tables, req: Request)
    requires Inv(s) && AcceptsUpdate(s, req)
    requires req.status == Draft && req.month == s.payrolls[req.id].month
    ensures SoundUpdate(s, req)
  {
    assert Active(s.payrolls[req.id].status);
  }

  /** A lawful change of one payroll row. */
  predicate RowChange(s: Tables, id: nat, row: PayrollRow) {
    && id in s.payrolls && RowOk(row)
    && row.month == s.payrolls[id].month && row.total == s.payrolls[id].total
    && (row.status == s.payrolls[id].status || Next(s.payrolls[id].status, row.status))
    && (s.payrolls[id].status == Paying || s.payrolls[id].status == Paid ==>
          row.txHash == s.payrolls[id].txHash && row.chain == s.payrolls[id].chain)
    && (s.payrolls[id].status == Paid ==> row.payTime == s.payrolls[id].payTime)
    && (s.payrolls[id].status == Draft && row.status != Draft ==> AcceptsSubmit(s, id))
  }

  lemma RowChangeKeepsInv(s: Tables, id: nat, row: PayrollRow)
    requires Inv(s) && RowChange(s, id, row)
    ensures Inv(WithRow(s, id, row))
  {
    var s' := WithRow(s, id, row);
    forall k <- s'.payslips | s'.payslips[k].payrollId == id && row.status != Draft
      ensures IsHexAddress(s'.payslips[k].address) {
      assert k in SlipsOf(s.payslips, id);
    }
  }

  lemma RowChangeSteps(s: Tables, id: nat, row: PayrollRow)
    requires RowChange(s, id, row)
    ensures Steps(s, WithRow(s, id, row))
  {
  }

  lemma RowChangeKeeps(s: Tables, id: nat, row: PayrollRow)
    requires Inv(s) && RowChange(s, id, row)
    ensures Inv(WithRow(s, id, row)) && Steps(s, WithRow(s, id, row))
  {
    RowChangeKeepsInv(s, id, row);
    RowChangeSteps(s, id, row);
  }

  lemma DraftActionKeeps(s: Tables, a: Action)
    requires Inv(s) && !a.saveFails && (a.Delete? || a.Audit?)
    ensures Inv(Step(s, a)) && Steps(s, Step(s, a))
  {
    match a
    case Delete(req, _) =>
      if InStatus(s, req.id, Draft) { RowChangeKeeps(s, req.id, s.payrolls[req.id].(flag := 1)); }
    case Audit(req, _) => if AcceptsAudit(s, req) { RowChangeKeeps(s, req.id, Step(s, a).payrolls[req.id]); }
  }

  lemma SubmitKeeps(s: Tables, req: Request)
    requires Inv(s)
    ensures Inv(Step(s, Submit(req, false))) && Steps(s, Step(s, Submit(req, false)))
  {
    if AcceptsSubmit(s, req.id) {
      RowChangeKeeps(s, req.id, Step(s, Submit(req, false)).payrolls[req.id]);
    }
  }

  lemma PayActionKeeps(s: Tables, a: Action)
    requires Inv(s) && !a.saveFails && (a.Pay? || a.StatusCheck?)
    ensures Inv(Step(s, a)) && Steps(s, Step(s, a))
  {
    match a
    case Pay(id, txHash, settings, _) =>
      if AcceptsPay(s, id, txHash, settings) { RowChangeKeeps(s, id, Step(s, a).payrolls[id]); }
    case StatusCheck(id, chainKnown, receipt, now, _) =>
      if AcceptsPaid(s, id, chainKnown, receipt) { RowChangeKeeps(s, id, Step(s, a).payrolls[id]); }
  }

  lemma StaffDeleteKeeps(s: Tables, payslipId: nat)
    requires Inv(s)
    ensures var s' := s.(payslips := s.payslips - {payslipId}); Inv(s') && Steps(s, s')
  {
  }

  lemma StepKeeps(s: Tables, a: Action)
    requires Inv(s) && Sound(s, a)
    ensures Inv(Step(s, a)) && Steps(s, Step(s, a))
  {
    if !a.saveFails {
      match a
      case Create(req, user, _) =>
        if AcceptsCreate(s, req) {
          CreateKeepsInv(s, req, user);
          CreateSteps(s, req, user);
        }
      case Update(req, _) =>
        if AcceptsUpdate(s, req) {
          UpdateKeepsInv(s, req);
          UpdateSteps(s, req);
        }
      case Submit(req, _) => SubmitKeeps(s, req);
      case StaffDelete(payslipId, _) => StaffDeleteKeeps(s, payslipId);
      case Pay(_, _, _, _) => PayActionKeeps(s, a);
      case StatusCheck(_, _, _, _, _) => PayActionKeeps(s, a);
      case _ => DraftActionKeeps(s, a);
    }
  }

  // ---- whole runs -------------------------------------------------------------------------------

  function Run(actions: seq<Action>): Tables {
    if actions == [] then Tables(map[], map[], 1, 1) else Step(Run(actions[..|actions| - 1]), actions[|actions| - 1])
  }

  ghost predicate SoundRun(actions: seq<Action>) {
    forall n :: 0 <= n < |actions| ==> Sound(Run(actions[..n]), actions[n])
  }

  lemma NextState(actions: seq<Action>, n: nat)
    requires n < |actions|
    ensures Run(actions[..n + 1]) == Step(Run(actions[..n]), actions[n])
  {
    assert actions[..n + 1][..n] == actions[..n];
  }

  /** The invariant holds at every moment of a run whose updates are sound. */
  lemma {:induction false} RunKeepsInv(actions: seq<Action>, n: nat)
    requires SoundRun(actions) && n <= |actions|
    ensures Inv(Run(actions[..n]))
  {
    if n == 0 {
    } else {
      RunKeepsInv(actions, n - 1);
      NextState(actions, n - 1);
      StepKeeps(Run(actions[..n - 1]), actions[n - 1]);
    }
  }

  lemma StepsEvolve(s: Tables, s': Tables)
    requires Steps(s, s')
    ensures Evolves(s, s')
  {
    forall id: nat ensures RowEvolves(s, s', id) {
      assert RowSteps(s, s', id);
    }
  }

  lemma EvolvesTransitive(s: Tables, t: Tables, u: Tables)
    requires Evolves(s, t) && Evolves(t, u)
    ensures Evolves(s, u)
  {
    forall id ensures RowEvolves(s, u, id) {
      assert RowEvolves(s, t, id) && RowEvolves(t, u, id);
      if id in s.payrolls && s.payrolls[id].status != Draft {
        forall k <- SlipsOf(u.payslips, id) ensures k in s.payslips && s.payslips[k] == u.payslips[k] {
          assert k in t.payslips && t.payslips[k] == u.payslips[k];
          assert k in SlipsOf(t.payslips, id);
        }
      }
    }
  }

  lemma SoundStepEvolves(actions: seq<Action>, n: nat)
    requires SoundRun(actions) && n < |actions|
    ensures Evolves(Run(actions[..n]), Run(actions[..n + 1]))
  {
    RunKeepsInv(actions, n);
    NextState(actions, n);
    StepKeeps(Run(actions[..n]), actions[n]);
    StepsEvolve(Run(actions[..n]), Run(actions[..n + 1]));
  }

  lemma NothingEvolves(s: Tables)
    ensures Evolves(s, s)
  {
  }

  /** Between any two moments of a run every payroll only evolves: its status advances along the
      workflow, and what is frozen stays frozen. */
  lemma {:induction false} RunEvolves(actions: seq<Action>, i: nat, j: nat)
    requires SoundRun(actions) && i <= j <= |actions|
    ensures Evolves(Run(actions[..i]), Run(actions[..j]))
    decreases j
  {
    if i == j {
      NothingEvolves(Run(actions[..i]));
    } else {
      RunEvolves(actions, i, j - 1);
      SoundStepEvolves(actions, j - 1);
      EvolvesTransitive(Run(actions[..i]), Run(actions[..j - 1]), Run(actions[..j]));
    }
  }

  function StatusAt(actions: seq<Action>, n: nat, id: nat): Option<Status>
    requires n <= |actions|
  {
    var s := Run(actions[..n]);
    if id in s.payrolls then Some(s.payrolls[id].status) else None
  }

  /** How often the status of an existing payroll has changed during the first n steps. */
  function Changes(actions: seq<Action>, n: nat, id: nat): nat
    requires n <= |actions|
  {
    if n == 0 then 0
    else Changes(actions, n - 1, id)
         + if StatusAt(actions, n - 1, id).Some? && StatusAt(actions, n, id) != StatusAt(actions, n - 1, id)
           then 1 else 0
  }

  function Rank(st: Status): nat {
    match st
    case Draft => 0
    case Waiting => 1
    case Approved => 2
    case Rejected => 2
    case Paying => 3
    case Paid => 4
    case Other(_) => 0
  }

  lemma RankGrows(a: Status, b: Status)
    requires Leads(a, b) && !a.Other?
    ensures a == b || Rank(a) < Rank(b)
    ensures Rank(b) <= 4
  {
  }

  lemma StatusAdvances(actions: seq<Action>, n: nat, id: nat)
    requires SoundRun(actions) && n < |actions| && StatusAt(actions, n, id).Some?
    ensures StatusAt(actions, n + 1, id).Some? && !StatusAt(actions, n, id).value.Other?
    ensures Leads(StatusAt(actions, n, id).value, StatusAt(actions, n + 1, id).value)
  {
    SoundStepEvolves(actions, n);
    RunKeepsInv(actions, n);
    assert RowEvolves(Run(actions[..n]), Run(actions[..n + 1]), id);
    assert RowOk(Run(actions[..n]).payrolls[id]);
  }

  /** A payroll changes its status at most four times. */
  lemma {:induction false} AtMostFourChanges(actions: seq<Action>, n: nat, id: nat)
    requires SoundRun(actions) && n <= |actions|
    ensures StatusAt(actions, n, id).Some? ==> Changes(actions, n, id) <= Rank(StatusAt(actions, n, id).value)
    ensures StatusAt(actions, n, id).None? ==> Changes(actions, n, id) == 0
    ensures Changes(actions, n, id) <= 4
  {
    if n == 0 {
    } else {
      AtMostFourChanges(actions, n - 1, id);
      if StatusAt(actions, n - 1, id).Some? {
        StatusAdvances(actions, n - 1, id);
        RankGrows(StatusAt(actions, n - 1, id).value, StatusAt(actions, n, id).value);
      }
    }
  }

  /** For instance, one update takes a new draft to paid, without a transaction and a pay time. */
  function CreatePay(user: nat): seq<Action> {
    [Create(Request(0, "202601", 0, Draft, "", [], ""), user, false),
     Update(Request(1, "202601", 0, Paid, "", [], ""), false)]
  }

  lemma UpdateSkipsTheWorkflow(user: nat)
    ensures var s := Run(CreatePay(user));
            InStatus(s, 1, Paid) && s.payrolls[1].txHash == "" && s.payrolls[1].payTime == None && !Inv(s)
  {
    var actions, empty := CreatePay(user), Tables(map[], map[], 1, 1);
    assert ValidYearMonth("202601");
    NextState(actions, 0);
    NextState(actions, 1);
    assert actions[..0] == [] && actions[..2] == actions;
    var s1 := Run(actions[..1]);
    assert s1 == Created(empty, actions[0].req, user);
    var s2 := Run(actions);
    assert s2 == Updated(s1, actions[1].req);
    assert !RowOk(s2.payrolls[1]);
  }
}
