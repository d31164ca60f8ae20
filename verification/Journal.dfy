/** The double-entry journal: the request validators, the posting service and the balance query. */
module Journal {
  import opened Wrappers

  // ---- validators and the account table -----------------------------------------------------------

  datatype Line = Line(account: nat, debit: int, credit: int)

  /** `JournalLineIn`, and the two CHECK constraints on stored lines. */
  predicate OneSided(l: Line) {
    l.debit >= 0 && l.credit >= 0 && (l.debit > 0) != (l.credit > 0)
  }

  function Debits(lines: seq<Line>): int {
    if lines == [] then 0 else Debits(lines[..|lines| - 1]) + lines[|lines| - 1].debit
  }

  function Credits(lines: seq<Line>): int {
    if lines == [] then 0 else Credits(lines[..|lines| - 1]) + lines[|lines| - 1].credit
  }

  /** What `JournalEntryCreate` accepts. */
  predicate ValidRequest(lines: seq<Line>) {
    && |lines| >= 2
    && (forall l :: l in lines ==> OneSided(l))
    && Debits(lines) == Credits(lines)
    && Debits(lines) != 0
  }

  datatype AccountType = Asset | Liability | Equity | Income | Expense

  datatype NormalBalance = Debit | Credit

  function NormalBalanceOf(t: AccountType): NormalBalance {
    match t
    case Asset => Debit
    case Expense => Debit
    case Liability => Credit
    case Equity => Credit
    case Income => Credit
  }

  datatype Account = Account(kind: AccountType, active: bool)

  // ---- the stored ledger -------------------------------------------------------------------------

  datatype Status = Draft | Posted | Reversed

  /** `date` stands for the ISO date string, which compares as dates do. */
  datatype Entry = Entry(date: int, status: Status, lines: seq<Line>, reversalOf: Option<nat>)

  /** An entry's id is its position. */
  datatype Ledger = Ledger(accounts: map<nat, Account>, entries: seq<Entry>)

  datatype Verdict =
    | Accepted | UnknownAccount | InactiveAccount | Unbalanced | ConstraintViolated | NoSuchEntry | WrongStatus

  function Swap(lines: seq<Line>): (r: seq<Line>)
    ensures |r| == |lines|
    ensures forall i :: 0 <= i < |lines| ==> r[i] == Line(lines[i].account, lines[i].credit, lines[i].debit)
  {
    if lines == [] then []
    else
      var l := lines[|lines| - 1];
      Swap(lines[..|lines| - 1]) + [Line(l.account, l.credit, l.debit)]
  }

  function CreateVerdict(g: Ledger, lines: seq<Line>): Verdict {
    if exists l :: l in lines && l.account !in g.accounts then UnknownAccount
    else if exists l :: l in lines && l.account in g.accounts && !g.accounts[l.account].active then InactiveAccount
    else if Debits(lines) != Credits(lines) then Unbalanced
    else if exists l :: l in lines && !OneSided(l) then ConstraintViolated
    else Accepted
  }

  function CreateStep(g: Ledger, date: int, lines: seq<Line>, autoPost: bool): Ledger {
    if CreateVerdict(g, lines) == Accepted
    then g.(entries := g.entries + [Entry(date, if autoPost then Posted else Draft, lines, None)])
    else g
  }

  function StatusVerdict(g: Ledger, id: nat, needed: Status): Verdict {
    if id >= |g.entries| then NoSuchEntry
    else if g.entries[id].status != needed then WrongStatus
    else Accepted
  }

  function PostStep(g: Ledger, id: nat): Ledger {
    if StatusVerdict(g, id, Draft) == Accepted
    then g.(entries := g.entries[id := g.entries[id].(status := Posted)])
    else g
  }

  function ReverseStep(g: Ledger, id: nat, today: int): Ledger {
    if StatusVerdict(g, id, Posted) == Accepted
    then g.(entries := g.entries[id := g.entries[id].(status := Reversed)]
                     + [Entry(today, Posted, Swap(g.entries[id].lines), Some(id))])
    else g
  }

  class JournalService {
    var accounts: map<nat, Account>
    var entries: seq<Entry>

    constructor (accounts: map<nat, Account>)
      ensures State() == Ledger(accounts, [])
    {
      this.accounts, entries := accounts, [];
    }

    function State(): Ledger
      reads this
    {
      Ledger(accounts, entries)
    }

    /** Callers inside the service skip the request validators, so totals are checked again;
        the database refuses a line that is not one-sided. */
    method CreateAndPost(date: int, lines: seq<Line>, autoPost: bool) returns (verdict: Verdict)
      modifies this
      ensures verdict == CreateVerdict(old(State()), lines)
      ensures State() == CreateStep(old(State()), date, lines, autoPost)
    {
      verdict := CheckAccounts(lines);
      if verdict != Accepted {
        return;
      }
      var totalDebit, totalCredit := 0, 0;
      for i := 0 to |lines|
        invariant totalDebit == Debits(lines[..i]) && totalCredit == Credits(lines[..i])
      {
        assert lines[..i + 1][..i] == lines[..i];
        totalDebit := totalDebit + lines[i].debit;
        totalCredit := totalCredit + lines[i].credit;
      }
      assert lines[..|lines|] == lines;
      if totalDebit != totalCredit {
        return Unbalanced;
      }
      if exists l :: l in lines && !OneSided(l) {
        return ConstraintViolated;
      }
      entries := entries + [Entry(date, Draft, lines, None)];
      if autoPost {
        entries := entries[|entries| - 1 := entries[|entries| - 1].(status := Posted)];
      }
      return Accepted;
    }

    method CheckAccounts(lines: seq<Line>) returns (verdict: Verdict)
      ensures verdict == UnknownAccount <==> exists l :: l in lines && l.account !in accounts
      ensures verdict == InactiveAccount <==>
        (forall l :: l in lines ==> l.account in accounts) && exists l :: l in lines && !accounts[l.account].active
      ensures verdict in {UnknownAccount, InactiveAccount, Accepted}
    {
      if exists l :: l in lines && l.account !in accounts {
        return UnknownAccount;
      }
      if exists l :: l in lines && !accounts[l.account].active {
        return InactiveAccount;
      }
      return Accepted;
    }

    method Post(id: nat) returns (verdict: Verdict)
      modifies this
      ensures verdict == StatusVerdict(old(State()), id, Draft)
      ensures State() == PostStep(old(State()), id)
    {
      if id >= |entries| {
        return NoSuchEntry;
      }
      if entries[id].status != Draft {
        return WrongStatus;
      }
      entries := entries[id := entries[id].(status := Posted)];
      return Accepted;
    }

    method Reverse(id: nat, today: int) returns (verdict: Verdict)
      modifies this
      ensures verdict == StatusVerdict(old(State()), id, Posted)
      ensures State() == ReverseStep(old(State()), id, today)
    {
      if id >= |entries| {
        return NoSuchEntry;
      }
      if entries[id].status != Posted {
        return WrongStatus;
      }
      var reversal := Entry(today, Posted, Swap(entries[id].lines), Some(id));
      entries := entries + [reversal];
      entries := entries[id := entries[id].(status := Reversed)];
      return Accepted;
    }
  }

  // ---- balances -----------------------------------------------------------------------------------

  /** What some lines put on one side of an account. */
  function SideOf(lines: seq<Line>, account: nat, side: NormalBalance): int {
    if lines == [] then 0
    else
      var l := lines[|lines| - 1];
      SideOf(lines[..|lines| - 1], account, side)
        + if l.account != account then 0 else if side == Debit then l.debit else l.credit
  }

  /** Only posted entries count, up to the date if one is given. */
  predicate Counts(e: Entry, asOf: Option<int>) {
    e.status == Posted && (asOf.Some? ==> e.date <= asOf.value)
  }

  function DebitTotal(entries: seq<Entry>, account: nat, asOf: Option<int>): int {
    if entries == [] then 0
    else
      var e := entries[|entries| - 1];
      DebitTotal(entries[..|entries| - 1], account, asOf)
        + if Counts(e, asOf) then SideOf(e.lines, account, Debit) else 0
  }

  function CreditTotal(entries: seq<Entry>, account: nat, asOf: Option<int>): int {
    if entries == [] then 0
    else
      var e := entries[|entries| - 1];
      CreditTotal(entries[..|entries| - 1], account, asOf)
        + if Counts(e, asOf) then SideOf(e.lines, account, Credit) else 0
  }

  /** `get_account_balance`: the two totals signed by the account's normal side. */
  function Balance(g: Ledger, account: nat, asOf: Option<int>): int
    requires account in g.accounts
  {
    var debit, credit := DebitTotal(g.entries, account, asOf), CreditTotal(g.entries, account, asOf);
    if NormalBalanceOf(g.accounts[account].kind) == Debit then debit - credit else credit - debit
  }
}
