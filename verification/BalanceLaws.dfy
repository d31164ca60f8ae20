/** What each call does to each balance, said in terms of the stored lines, dates and statuses alone. */
module BalanceLaws {
  import opened Wrappers
  import opened Journal
  import opened JournalLaws

  /** What some lines debit to an account. */
  function DebitsTo(lines: seq<Line>, account: nat): int {
    if lines == [] then 0
    else
      var l := lines[|lines| - 1];
      DebitsTo(lines[..|lines| - 1], account) + if l.account == account then l.debit else 0
  }

  function CreditsTo(lines: seq<Line>, account: nat): int {
    if lines == [] then 0
    else
      var l := lines[|lines| - 1];
      CreditsTo(lines[..|lines| - 1], account) + if l.account == account then l.credit else 0
  }

  /** Debits raise assets and expenses, and lower everything else. */
  function NetTo(account: Account, lines: seq<Line>, id: nat): int {
    var net := DebitsTo(lines, id) - CreditsTo(lines, id);
    if account.kind == Asset || account.kind == Expense then net else -net
  }

  predicate UpTo(date: int, asOf: Option<int>) {
    asOf == None || date <= asOf.value
  }

  lemma {:induction false} SidesAre(lines: seq<Line>, account: nat)
    ensures SideOf(lines, account, Debit) == DebitsTo(lines, account)
    ensures SideOf(lines, account, Credit) == CreditsTo(lines, account)
  {
    if lines != [] {
      SidesAre(lines[..|lines| - 1], account);
    }
  }

  lemma EffectIsNet(g: Ledger, lines: seq<Line>, account: nat)
    requires account in g.accounts
    ensures Effect(g, lines, account) == NetTo(g.accounts[account], lines, account)
  {
    SidesAre(lines, account);
  }

  // ---- the query --------------------------------------------------------------------------------

  /** Debits and credits to an account of the entries that are posted and dated up to the given day. */
  function PostedDebits(entries: seq<Entry>, account: nat, asOf: Option<int>): int {
    if entries == [] then 0
    else
      var e := entries[|entries| - 1];
      PostedDebits(entries[..|entries| - 1], account, asOf)
        + if e.status == Posted && UpTo(e.date, asOf) then DebitsTo(e.lines, account) else 0
  }

  function PostedCredits(entries: seq<Entry>, account: nat, asOf: Option<int>): int {
    if entries == [] then 0
    else
      var e := entries[|entries| - 1];
      PostedCredits(entries[..|entries| - 1], account, asOf)
        + if e.status == Posted && UpTo(e.date, asOf) then CreditsTo(e.lines, account) else 0
  }

  lemma {:induction false} TotalsArePosted(entries: seq<Entry>, account: nat, asOf: Option<int>)
    ensures DebitTotal(entries, account, asOf) == PostedDebits(entries, account, asOf)
    ensures CreditTotal(entries, account, asOf) == PostedCredits(entries, account, asOf)
  {
    if entries != [] {
      TotalsArePosted(entries[..|entries| - 1], account, asOf);
      SidesAre(entries[|entries| - 1].lines, account);
    }
  }

  /** The balance is what the posted entries up to the day debit to the account less what they credit,
      or the other way round for liabilities, equity and income. */
  lemma BalanceIsPosted(g: Ledger, account: nat, asOf: Option<int>)
    requires account in g.accounts
    ensures var debits, credits := PostedDebits(g.entries, account, asOf), PostedCredits(g.entries, account, asOf);
      Balance(g, account, asOf)
      == if g.accounts[account].kind == Asset || g.accounts[account].kind == Expense then debits - credits
         else credits - debits
  {
    TotalsArePosted(g.entries, account, asOf);
  }

  function DebitsOver(chart: seq<nat>, entries: seq<Entry>, asOf: Option<int>): int {
    if chart == [] then 0
    else DebitsOver(chart[..|chart| - 1], entries, asOf) + PostedDebits(entries, chart[|chart| - 1], asOf)
  }

  function CreditsOver(chart: seq<nat>, entries: seq<Entry>, asOf: Option<int>): int {
    if chart == [] then 0
    else CreditsOver(chart[..|chart| - 1], entries, asOf) + PostedCredits(entries, chart[|chart| - 1], asOf)
  }

  lemma {:induction false} SumsArePosted(chart: seq<nat>, entries: seq<Entry>, asOf: Option<int>)
    ensures DebitSum(chart, entries, asOf) == DebitsOver(chart, entries, asOf)
    ensures CreditSum(chart, entries, asOf) == CreditsOver(chart, entries, asOf)
  {
    if chart != [] {
      SumsArePosted(chart[..|chart| - 1], entries, asOf);
      TotalsArePosted(entries, chart[|chart| - 1], asOf);
    }
  }

  /** After any run, at any date, the posted debits of all accounts add up to their posted credits. */
  lemma PostedTrialBalance(chart: seq<nat>, accounts: map<nat, Account>, run: seq<Command>, asOf: Option<int>)
    requires Lists(chart, accounts)
    ensures var entries := After(accounts, run).entries;
      DebitsOver(chart, entries, asOf) == CreditsOver(chart, entries, asOf)
  {
    TrialBalance(chart, accounts, run, asOf);
    SumsArePosted(chart, After(accounts, run).entries, asOf);
  }

  // ---- what each call adds ----------------------------------------------------------------------

  /** An entry is stored exactly when all its accounts are known and active, each line has one positive side and
      no negative one, and the sides sum up alike. */
  lemma StoredIff(g: Ledger, date: int, lines: seq<Line>, autoPost: bool)
    ensures CreateStep(g, date, lines, autoPost) != g <==>
      && (forall l :: l in lines ==> l.account in g.accounts && g.accounts[l.account].active)
      && (forall l :: l in lines ==> (l.debit > 0 && l.credit == 0) || (l.debit == 0 && l.credit > 0))
      && Debits(lines) == Credits(lines)
    ensures CreateStep(g, date, lines, autoPost) != g ==>
      CreateStep(g, date, lines, autoPost)
      == g.(entries := g.entries + [Entry(date, if autoPost then Posted else Draft, lines, None)])
  {
    assert |g.entries + [Entry(date, if autoPost then Posted else Draft, lines, None)]| != |g.entries|;
  }

  /** Storing an entry moves each balance by the entry's net from its date on if it is posted at once,
      and not at all if it is kept as a draft. */
  lemma CreateMovesBalance(g: Ledger, date: int, lines: seq<Line>, autoPost: bool, account: nat, asOf: Option<int>)
    requires CreateVerdict(g, lines) == Accepted && account in g.accounts
    ensures Balance(CreateStep(g, date, lines, autoPost), account, asOf)
         == Balance(g, account, asOf)
            + if autoPost && UpTo(date, asOf) then NetTo(g.accounts[account], lines, account) else 0
  {
    BalanceOfAppend(g, Entry(date, if autoPost then Posted else Draft, lines, None), account, asOf);
    EffectIsNet(g, lines, account);
  }

  /** Posting a draft adds exactly its net, from its date on. */
  lemma PostMovesBalance(g: Ledger, id: nat, account: nat, asOf: Option<int>)
    requires id < |g.entries| && g.entries[id].status == Draft && account in g.accounts
    ensures var e := g.entries[id];
      Balance(PostStep(g, id), account, asOf)
      == Balance(g, account, asOf) + if UpTo(e.date, asOf) then NetTo(g.accounts[account], e.lines, account) else 0
  {
    BalanceOfUpdate(g, id, g.entries[id].(status := Posted), account, asOf);
    EffectIsNet(g, g.entries[id].lines, account);
  }

  /** Reversing a posted entry takes its net out from its own date on, and once more from the day of reversal on. */
  lemma ReverseMovesBalance(g: Ledger, id: nat, today: int, account: nat, asOf: Option<int>)
    requires id < |g.entries| && g.entries[id].status == Posted && account in g.accounts
    ensures var e := g.entries[id];
      var net := NetTo(g.accounts[account], e.lines, account);
      Balance(ReverseStep(g, id, today), account, asOf)
      == Balance(g, account, asOf) - (if UpTo(e.date, asOf) then net else 0) - (if UpTo(today, asOf) then net else 0)
  {
    ReversalBalance(g, id, today, account, asOf);
    EffectIsNet(g, g.entries[id].lines, account);
  }

  /** Posting what is no draft, and reversing what is not posted, changes nothing. */
  lemma RefusedChangesNothing(g: Ledger, id: nat, today: int)
    ensures id >= |g.entries| || g.entries[id].status != Draft ==> PostStep(g, id) == g
    ensures id >= |g.entries| || g.entries[id].status != Posted ==> ReverseStep(g, id, today) == g
  {
  }

  /** A draft never counts, however long it stays: posting it late gives the balances it would have had at once. */
  lemma LatePostingCatchesUp(g: Ledger, date: int, lines: seq<Line>, account: nat, asOf: Option<int>)
    requires CreateVerdict(g, lines) == Accepted && account in g.accounts
    ensures Balance(CreateStep(g, date, lines, false), account, asOf) == Balance(g, account, asOf)
    ensures PostStep(CreateStep(g, date, lines, false), |g.entries|) == CreateStep(g, date, lines, true)
  {
    CreateMovesBalance(g, date, lines, false, account, asOf);
  }
}
