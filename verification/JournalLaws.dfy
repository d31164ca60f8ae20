/** The laws of the ledger over every run of creating, posting and reversing entries. */
module JournalLaws {
  import opened Wrappers
  import opened Journal

  datatype Command =
    | Create(date: int, lines: seq<Line>, autoPost: bool)
    | Post(id: nat)
    | Reverse(id: nat, today: int)

  function Step(g: Ledger, c: Command): Ledger {
    match c
    case Create(date, lines, autoPost) => CreateStep(g, date, lines, autoPost)
    case Post(id) => PostStep(g, id)
    case Reverse(id, today) => ReverseStep(g, id, today)
  }

  function After(accounts: map<nat, Account>, run: seq<Command>): Ledger {
    if run == [] then Ledger(accounts, [])
    else Step(After(accounts, run[..|run| - 1]), run[|run| - 1])
  }

  // ---- the request validators -----------------------------------------------------------------------

  lemma {:induction false} OneSidedTotals(lines: seq<Line>)
    requires forall l :: l in lines ==> OneSided(l)
    ensures Debits(lines) >= 0 && Credits(lines) >= 0 && (lines != [] ==> Debits(lines) + Credits(lines) > 0)
  {
    if lines != [] {
      assert lines[|lines| - 1] in lines;
      OneSidedTotals(lines[..|lines| - 1]);
    }
  }

  /** The non-zero check of the request validator is implied by the other checks; so a request the validator
      accepts is exactly one of at least two one-sided lines the posting service balances. */
  lemma ValidRequestIff(lines: seq<Line>)
    ensures ValidRequest(lines) <==>
      |lines| >= 2 && (forall l :: l in lines ==> OneSided(l)) && Debits(lines) == Credits(lines)
  {
    if |lines| >= 2 && forall l :: l in lines ==> OneSided(l) {
      OneSidedTotals(lines);
    }
  }

  lemma SingleLineUnbalanced(l: Line)
    requires OneSided(l)
    ensures Debits([l]) != Credits([l])
  {
    assert [l][..0] == [];
  }

  /** What the service stores from a caller that skipped the validators is still a valid request,
      or an entry without lines. */
  lemma AcceptedIsValid(g: Ledger, lines: seq<Line>)
    requires CreateVerdict(g, lines) == Accepted
    ensures ValidRequest(lines) || lines == []
  {
    ValidRequestIff(lines);
    assert forall l :: l in lines ==> OneSided(l);
    if |lines| == 1 {
      assert lines == [lines[0]] && lines[0] in lines;
      SingleLineUnbalanced(lines[0]);
    }
  }

  // ---- swapping sides -------------------------------------------------------------------------------

  lemma {:induction false} SwapTotals(lines: seq<Line>)
    ensures Debits(Swap(lines)) == Credits(lines) && Credits(Swap(lines)) == Debits(lines)
  {
    if lines != [] {
      var front := lines[..|lines| - 1];
      SwapTotals(front);
      assert Swap(lines)[..|lines| - 1] == Swap(front);
    }
  }

  lemma {:induction false} SwapSides(lines: seq<Line>, account: nat)
    ensures SideOf(Swap(lines), account, Debit) == SideOf(lines, account, Credit)
    ensures SideOf(Swap(lines), account, Credit) == SideOf(lines, account, Debit)
  {
    if lines != [] {
      var front := lines[..|lines| - 1];
      SwapSides(front, account);
      assert Swap(lines)[..|lines| - 1] == Swap(front);
    }
  }

  /** A reversal of a reversal carries the original lines. */
  lemma SwapTwice(lines: seq<Line>)
    ensures Swap(Swap(lines)) == lines
  {
  }

  // ---- what every run keeps ---------------------------------------------------------------------------

  ghost predicate Covered(accounts: map<nat, Account>, lines: seq<Line>) {
    forall l :: l in lines ==> l.account in accounts
  }

  ghost predicate Sound(g: Ledger) {
    forall e :: e in g.entries ==> Debits(e.lines) == Credits(e.lines) && Covered(g.accounts, e.lines)
  }

  /** Entry `j` is the reversal of entry `i`. */
  ghost predicate Reverses(entries: seq<Entry>, j: nat, i: nat) {
    i < j < |entries| && entries[j].reversalOf == Some(i) && entries[j].lines == Swap(entries[i].lines)
  }

  /** Each reversed entry has exactly one reversal, and each reversal reverses a reversed entry. */
  ghost predicate Linked(entries: seq<Entry>) {
    && (forall i :: 0 <= i < |entries| && entries[i].status == Reversed ==> exists j :: Reverses(entries, j, i))
    && (forall j :: 0 <= j < |entries| && entries[j].reversalOf.Some? ==>
          Reverses(entries, j, entries[j].reversalOf.value) && entries[entries[j].reversalOf.value].status == Reversed)
    && (forall j, k :: 0 <= j < k < |entries| && entries[j].reversalOf.Some? ==>
          entries[j].reversalOf != entries[k].reversalOf)
  }

  lemma SwapIsSound(accounts: map<nat, Account>, lines: seq<Line>)
    requires Debits(lines) == Credits(lines) && Covered(accounts, lines)
    ensures Debits(Swap(lines)) == Credits(Swap(lines)) && Covered(accounts, Swap(lines))
  {
    SwapTotals(lines);
    forall l | l in Swap(lines) ensures l.account in accounts {
      var i :| 0 <= i < |lines| && Swap(lines)[i] == l;
      assert lines[i] in lines;
    }
  }

  lemma StepKeepsSound(g: Ledger, c: Command)
    requires Sound(g)
    ensures Sound(Step(g, c)) && Step(g, c).accounts == g.accounts
  {
    var g' := Step(g, c);
    if c.Reverse? && StatusVerdict(g, c.id, Posted) == Accepted {
      assert g.entries[c.id] in g.entries;
      SwapIsSound(g.accounts, g.entries[c.id].lines);
    }
    forall i | 0 <= i < |g'.entries|
      ensures Debits(g'.entries[i].lines) == Credits(g'.entries[i].lines) && Covered(g.accounts, g'.entries[i].lines)
    {
      if i < |g.entries| {
        assert g.entries[i] in g.entries;
        StepKeepsEntry(g, c, i);
      }
    }
  }

  lemma ReverseKeepsLinked(g: Ledger, id: nat, today: int)
    requires Linked(g.entries) && StatusVerdict(g, id, Posted) == Accepted
    ensures Linked(ReverseStep(g, id, today).entries)
  {
    var before, after := g.entries, ReverseStep(g, id, today).entries;
    var n := |before|;
    assert forall i :: 0 <= i < n ==> after[i].lines == before[i].lines && after[i].reversalOf == before[i].reversalOf;
    assert Reverses(after, n, id);
    forall i | 0 <= i < n && after[i].status == Reversed && i != id ensures exists j :: Reverses(after, j, i) {
      assert before[i].status == Reversed;
      var j :| Reverses(before, j, i);
      assert Reverses(after, j, i);
    }
    forall j | 0 <= j < n && after[j].reversalOf.Some?
      ensures Reverses(after, j, after[j].reversalOf.value) && after[after[j].reversalOf.value].status == Reversed
      ensures after[j].reversalOf != Some(id)
    {
      assert Reverses(before, j, before[j].reversalOf.value);
    }
  }

  lemma SameLinksLinked(entries: seq<Entry>, entries': seq<Entry>)
    requires Linked(entries) && |entries| <= |entries'|
    requires forall i :: 0 <= i < |entries| ==>
      && entries'[i].lines == entries[i].lines && entries'[i].reversalOf == entries[i].reversalOf
      && (entries'[i].status == Reversed <==> entries[i].status == Reversed)
    requires forall i :: |entries| <= i < |entries'| ==>
      entries'[i].status != Reversed && entries'[i].reversalOf == None
    ensures Linked(entries')
  {
    forall i | 0 <= i < |entries'| && entries'[i].status == Reversed ensures exists j :: Reverses(entries', j, i) {
      var j :| Reverses(entries, j, i);
      assert Reverses(entries', j, i);
    }
    forall j | 0 <= j < |entries'| && entries'[j].reversalOf.Some?
      ensures Reverses(entries', j, entries'[j].reversalOf.value)
        && entries'[entries'[j].reversalOf.value].status == Reversed
    {
      assert Reverses(entries, j, entries[j].reversalOf.value);
    }
  }

  lemma StepKeepsLinked(g: Ledger, c: Command)
    requires Linked(g.entries)
    ensures Linked(Step(g, c).entries)
  {
    match c
    case Reverse(id, today) =>
      if StatusVerdict(g, id, Posted) == Accepted { ReverseKeepsLinked(g, id, today); }
    case _ =>
      SameLinksLinked(g.entries, Step(g, c).entries);
  }

  /** Over every run entries balance on known accounts, and reversals and reversed entries pair up one to one. */
  lemma {:induction false} RunKeeps(accounts: map<nat, Account>, run: seq<Command>)
    ensures var g := After(accounts, run); g.accounts == accounts && Sound(g) && Linked(g.entries)
  {
    if run != [] {
      RunKeeps(accounts, run[..|run| - 1]);
      StepKeepsSound(After(accounts, run[..|run| - 1]), run[|run| - 1]);
      StepKeepsLinked(After(accounts, run[..|run| - 1]), run[|run| - 1]);
    }
  }

  function Rank(s: Status): nat {
    match s case Draft => 0 case Posted => 1 case Reversed => 2
  }

  lemma StepKeepsEntry(g: Ledger, c: Command, i: nat)
    requires i < |g.entries|
    ensures i < |Step(g, c).entries|
    ensures var e, e' := g.entries[i], Step(g, c).entries[i];
      e'.lines == e.lines && e'.date == e.date && e'.reversalOf == e.reversalOf && Rank(e.status) <= Rank(e'.status)
  {
  }

  function Continue(g: Ledger, run: seq<Command>): Ledger {
    if run == [] then g else Step(Continue(g, run[..|run| - 1]), run[|run| - 1])
  }

  /** Whatever is called later, no entry is removed, has its lines or date edited, or moves its status back. */
  lemma {:induction false} EntriesAreImmutable(g: Ledger, run: seq<Command>, i: nat)
    requires i < |g.entries|
    ensures i < |Continue(g, run).entries|
    ensures var e, e' := g.entries[i], Continue(g, run).entries[i];
      e'.lines == e.lines && e'.date == e.date && e'.reversalOf == e.reversalOf && Rank(e.status) <= Rank(e'.status)
  {
    if run != [] {
      EntriesAreImmutable(g, run[..|run| - 1], i);
      StepKeepsEntry(Continue(g, run[..|run| - 1]), run[|run| - 1], i);
    }
  }

  // ---- sums over the chart of accounts ----------------------------------------------------------------

  /** The chart lists every account once. */
  ghost predicate Lists(chart: seq<nat>, accounts: map<nat, Account>) {
    && (forall i, j :: 0 <= i < j < |chart| ==> chart[i] != chart[j])
    && (forall a :: a in chart <==> a in accounts)
  }

  /** One side of some lines, account by account. */
  function SideSum(chart: seq<nat>, lines: seq<Line>, side: NormalBalance): int {
    if chart == [] then 0
    else SideSum(chart[..|chart| - 1], lines, side) + SideOf(lines, chart[|chart| - 1], side)
  }

  function DebitSum(chart: seq<nat>, entries: seq<Entry>, asOf: Option<int>): int {
    if chart == [] then 0
    else DebitSum(chart[..|chart| - 1], entries, asOf) + DebitTotal(entries, chart[|chart| - 1], asOf)
  }

  function CreditSum(chart: seq<nat>, entries: seq<Entry>, asOf: Option<int>): int {
    if chart == [] then 0
    else CreditSum(chart[..|chart| - 1], entries, asOf) + CreditTotal(entries, chart[|chart| - 1], asOf)
  }

  function Amount(l: Line, side: NormalBalance): int {
    if side == Debit then l.debit else l.credit
  }

  /** Each line is seen by exactly one account of the chart. */
  lemma {:induction false} SideSumOfAppend(chart: seq<nat>, lines: seq<Line>, l: Line, side: NormalBalance)
    requires forall i, j :: 0 <= i < j < |chart| ==> chart[i] != chart[j]
    ensures SideSum(chart, lines + [l], side)
         == SideSum(chart, lines, side) + if l.account in chart then Amount(l, side) else 0
  {
    if chart != [] {
      var front, last := chart[..|chart| - 1], chart[|chart| - 1];
      SideSumOfAppend(front, lines, l, side);
      assert chart == front + [last] && (lines + [l])[..|lines|] == lines;
    }
  }

  lemma {:induction false} SideSumOfNothing(chart: seq<nat>, side: NormalBalance)
    ensures SideSum(chart, [], side) == 0
  {
    if chart != [] {
      SideSumOfNothing(chart[..|chart| - 1], side);
    }
  }

  /** Summing one side of some lines account by account gives their total on that side. */
  lemma {:induction false} SideSumIsTotal(
      chart: seq<nat>, accounts: map<nat, Account>, lines: seq<Line>, side: NormalBalance)
    requires Lists(chart, accounts) && Covered(accounts, lines)
    ensures SideSum(chart, lines, side) == if side == Debit then Debits(lines) else Credits(lines)
  {
    if lines == [] {
      SideSumOfNothing(chart, side);
    } else {
      var front, l := lines[..|lines| - 1], lines[|lines| - 1];
      assert l in lines && lines == front + [l];
      SideSumIsTotal(chart, accounts, front, side);
      SideSumOfAppend(chart, front, l, side);
    }
  }

  /** Swapping the order of summation: by entry instead of by account. */
  lemma {:induction false} SumsOfAppend(chart: seq<nat>, entries: seq<Entry>, e: Entry, asOf: Option<int>)
    ensures DebitSum(chart, entries + [e], asOf)
         == DebitSum(chart, entries, asOf) + if Counts(e, asOf) then SideSum(chart, e.lines, Debit) else 0
    ensures CreditSum(chart, entries + [e], asOf)
         == CreditSum(chart, entries, asOf) + if Counts(e, asOf) then SideSum(chart, e.lines, Credit) else 0
  {
    if chart != [] {
      SumsOfAppend(chart[..|chart| - 1], entries, e, asOf);
      assert (entries + [e])[..|entries|] == entries;
    }
  }

  lemma {:induction false} SumsOfNothing(chart: seq<nat>, asOf: Option<int>)
    ensures DebitSum(chart, [], asOf) == 0 && CreditSum(chart, [], asOf) == 0
  {
    if chart != [] {
      SumsOfNothing(chart[..|chart| - 1], asOf);
    }
  }

  // ---- the trial balance and the accounting equation ----------------------------------------------------

  lemma {:induction false} SoundTrialBalance(chart: seq<nat>, g: Ledger, asOf: Option<int>)
    requires Lists(chart, g.accounts) && Sound(g)
    ensures DebitSum(chart, g.entries, asOf) == CreditSum(chart, g.entries, asOf)
    decreases |g.entries|
  {
    if g.entries == [] {
      SumsOfNothing(chart, asOf);
    } else {
      var front, e := g.entries[..|g.entries| - 1], g.entries[|g.entries| - 1];
      assert e in g.entries && g.entries == front + [e];
      SoundTrialBalance(chart, g.(entries := front), asOf);
      SumsOfAppend(chart, front, e, asOf);
      SideSumIsTotal(chart, g.accounts, e.lines, Debit);
      SideSumIsTotal(chart, g.accounts, e.lines, Credit);
    }
  }

  /** After any run, at any date, the debit totals of all accounts sum to the credit totals. */
  lemma TrialBalance(chart: seq<nat>, accounts: map<nat, Account>, run: seq<Command>, asOf: Option<int>)
    requires Lists(chart, accounts)
    ensures var entries := After(accounts, run).entries;
      DebitSum(chart, entries, asOf) == CreditSum(chart, entries, asOf)
  {
    RunKeeps(accounts, run);
    SoundTrialBalance(chart, After(accounts, run), asOf);
  }

  /** The signed balances of all accounts of one kind. */
  function KindTotal(g: Ledger, chart: seq<nat>, kind: AccountType, asOf: Option<int>): int
    requires forall a :: a in chart ==> a in g.accounts
  {
    if chart == [] then 0
    else
      var a := chart[|chart| - 1];
      KindTotal(g, chart[..|chart| - 1], kind, asOf) + if g.accounts[a].kind == kind then Balance(g, a, asOf) else 0
  }

  lemma {:induction false} KindsSplitTheChart(g: Ledger, chart: seq<nat>, asOf: Option<int>)
    requires forall a :: a in chart ==> a in g.accounts
    ensures KindTotal(g, chart, Asset, asOf) + KindTotal(g, chart, Expense, asOf)
          - KindTotal(g, chart, Liability, asOf) - KindTotal(g, chart, Equity, asOf) - KindTotal(g, chart, Income, asOf)
         == DebitSum(chart, g.entries, asOf) - CreditSum(chart, g.entries, asOf)
  {
    if chart != [] {
      KindsSplitTheChart(g, chart[..|chart| - 1], asOf);
    }
  }

  /** After any run, at any date: assets + expenses == liabilities + equity + income, in signed balances. */
  lemma AccountingEquation(chart: seq<nat>, accounts: map<nat, Account>, run: seq<Command>, asOf: Option<int>)
    requires Lists(chart, accounts)
    ensures After(accounts, run).accounts == accounts
    ensures var g := After(accounts, run);
      KindTotal(g, chart, Asset, asOf) + KindTotal(g, chart, Expense, asOf)
      == KindTotal(g, chart, Liability, asOf) + KindTotal(g, chart, Equity, asOf) + KindTotal(g, chart, Income, asOf)
  {
    RunKeeps(accounts, run);
    TrialBalance(chart, accounts, run, asOf);
    KindsSplitTheChart(After(accounts, run), chart, asOf);
  }

  // ---- what reversing does to a balance -----------------------------------------------------------------

  /** What some lines add to the signed balance of an account when they count. */
  function Effect(g: Ledger, lines: seq<Line>, account: nat): int
    requires account in g.accounts
  {
    var net := SideOf(lines, account, Debit) - SideOf(lines, account, Credit);
    if NormalBalanceOf(g.accounts[account].kind) == Debit then net else -net
  }

  /** What one entry adds to the signed balance of an account. */
  function Share(g: Ledger, e: Entry, account: nat, asOf: Option<int>): int
    requires account in g.accounts
  {
    if Counts(e, asOf) then Effect(g, e.lines, account) else 0
  }

  lemma BalanceOfAppend(g: Ledger, e: Entry, account: nat, asOf: Option<int>)
    requires account in g.accounts
    ensures Balance(g.(entries := g.entries + [e]), account, asOf)
         == Balance(g, account, asOf) + Share(g, e, account, asOf)
  {
    assert (g.entries + [e])[..|g.entries|] == g.entries;
  }

  lemma {:induction false} BalanceOfUpdate(g: Ledger, i: nat, e: Entry, account: nat, asOf: Option<int>)
    requires account in g.accounts && i < |g.entries|
    ensures Balance(g.(entries := g.entries[i := e]), account, asOf)
         == Balance(g, account, asOf) - Share(g, g.entries[i], account, asOf) + Share(g, e, account, asOf)
    decreases |g.entries|
  {
    var n := |g.entries| - 1;
    var front := g.(entries := g.entries[..n]);
    if i == n {
      assert g.entries[i := e][..n] == g.entries[..n];
    } else {
      BalanceOfUpdate(front, i, e, account, asOf);
      assert g.entries[i := e][..n] == g.entries[..n][i := e];
    }
  }

  /** Reversing takes the original out of the balance, and from its own date on the reversal's swapped lines
      take it out once more. */
  lemma ReversalBalance(g: Ledger, id: nat, today: int, account: nat, asOf: Option<int>)
    requires StatusVerdict(g, id, Posted) == Accepted && account in g.accounts
    ensures var original := g.entries[id];
      var share := Effect(g, original.lines, account);
      Balance(ReverseStep(g, id, today), account, asOf)
      == Balance(g, account, asOf)
         - (if asOf.None? || original.date <= asOf.value then share else 0)
         - (if asOf.None? || today <= asOf.value then share else 0)
  {
    var original := g.entries[id];
    var marked := g.(entries := g.entries[id := original.(status := Reversed)]);
    var reversal := Entry(today, Posted, Swap(original.lines), Some(id));
    BalanceOfUpdate(g, id, original.(status := Reversed), account, asOf);
    BalanceOfAppend(marked, reversal, account, asOf);
    SwapSides(original.lines, account);
    assert ReverseStep(g, id, today) == marked.(entries := marked.entries + [reversal]);
  }

  /** Posting an entry and then reversing it is meant to leave every balance where it was. It does so for an account
      exactly when the entry's lines on that account already cancel: the entry leaves the balance when it is marked
      REVERSED, and its reversal, which stays POSTED, takes it out a second time. */
  lemma PostThenReverseRestoresIff(g: Ledger, date: int, lines: seq<Line>, today: int, account: nat)
    requires CreateVerdict(g, lines) == Accepted && account in g.accounts
    ensures var posted := CreateStep(g, date, lines, true);
      var reversed := ReverseStep(posted, |g.entries|, today);
      && StatusVerdict(posted, |g.entries|, Posted) == Accepted
      && Balance(posted, account, None) == Balance(g, account, None) + Effect(g, lines, account)
      && Balance(reversed, account, None) == Balance(g, account, None) - Effect(g, lines, account)
      && (Balance(reversed, account, None) == Balance(g, account, None)
          <==> SideOf(lines, account, Debit) == SideOf(lines, account, Credit))
  {
    var e := Entry(date, Posted, lines, None);
    var posted := CreateStep(g, date, lines, true);
    BalanceOfAppend(g, e, account, None);
    ReversalBalance(posted, |g.entries|, today, account, None);
  }

  const CHART := map[1 := Account(Asset, true), 2 := Account(Income, true)]
  const SALE := [Line(1, 100, 0), Line(2, 0, 100)]

  lemma SaleIsAccepted()
    ensures CreateVerdict(Ledger(CHART, []), SALE) == Accepted
    ensures Effect(Ledger(CHART, []), SALE, 1) == 100
  {
    var front := [Line(1, 100, 0)];
    assert SALE[..1] == front && front[..0] == [];
    assert Debits(front) == 100;
    assert Credits(front) == 0;
    assert SideOf(front, 1, Debit) == 100 && SideOf(front, 1, Credit) == 0;
  }

  /** A sale of 100 posted and reversed leaves the bank account at minus 100. */
  lemma ReversedSaleOverdraws()
    ensures var g := After(CHART, [Create(1, SALE, true), Reverse(0, 2)]);
      1 in g.accounts && Balance(g, 1, None) == -100
  {
    var g := Ledger(CHART, []);
    SaleIsAccepted();
    PostThenReverseRestoresIff(g, 1, SALE, 2, 1);
    AfterTwo(CHART, Create(1, SALE, true), Reverse(0, 2));
    assert Balance(g, 1, None) == 0;
  }

  lemma AfterTwo(accounts: map<nat, Account>, c: Command, d: Command)
    ensures After(accounts, [c, d]) == Step(Step(Ledger(accounts, []), c), d)
  {
    assert [c, d][..1] == [c] && [c][..0] == [];
    assert After(accounts, [c]) == Step(After(accounts, []), c);
  }
}
