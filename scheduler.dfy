/** The installment scheduler of the billing tracker (src/App.js): the next
    due date of a client record, the list of pending charges (due today or
    overdue, overdue first) and the full client list with its overdue flag.
    The ambient clock of date-fns `isToday`/`isPast` is the explicit `today`
    parameter, and dates are compared as calendar days. */
module Scheduler {
  import opened Wrappers
  import opened Calendar
  import opened IsoDate
  import opened Seqs

  /** A client record as the backend lists it. The four fields the scheduler
      reads are typed; every other field (id, nome_cliente, descricao,
      telefone, valor_parcela, ...) travels in `rest` untouched.
      `vencimento` is the stored text of the first due date; "" stands for a
      missing, null or empty value, all of which the source treats as false. */
  datatype Client = Client(
    vencimento: string,
    tipoPagamento: string,
    parcelaAtual: nat,
    totalParcelas: nat,
    rest: map<string, string>)

  /** A record with the `isOverdue` flag spread onto it (`{ ...client, isOverdue }`). */
  datatype Entry = Entry(client: Client, isOverdue: bool)

  const Monthly := "mensal"
  const Weekly := "semanal"

  // ---------------------------------------------------------------------
  // calculateNextDueDate
  // ---------------------------------------------------------------------

  /** The due date of the next unpaid installment: the start date advanced by
      `parcelaAtual` months ("mensal") or weeks ("semanal"), or the start date
      itself for any other payment type. None when there is no start date or
      it does not parse. */
  function CalculateNextDueDate(c: Client): (r: Option<Date>)
    ensures r.Some? ==> ValidDate(r.value)
    ensures r.None? <==> ParseIsoDate(c.vencimento).None?
  {
    if c.vencimento == "" then None
    else match ParseIsoDate(c.vencimento)
      case None => None
      case Some(start) =>
        if c.tipoPagamento == Monthly then Some(AddMonths(start, c.parcelaAtual))
        else if c.tipoPagamento == Weekly then Some(AddDays(start, 7 * c.parcelaAtual))
        else Some(start)
  }

  /** Monthly: `parcelaAtual` calendar months after the start, on the same day
      of the month or, when the target month is shorter, on its last day. */
  lemma NextDueDateMonthly(c: Client)
    requires c.tipoPagamento == Monthly && ParseIsoDate(c.vencimento).Some?
    ensures var start := ParseIsoDate(c.vencimento).value;
      var r := CalculateNextDueDate(c);
      && r.Some?
      && MonthIndex(r.value) == MonthIndex(start) + c.parcelaAtual
      && r.value.day <= start.day
      && (r.value.day < start.day ==> r.value.day == DaysInMonth(r.value.year, r.value.month))
  {
    assert c.vencimento != "";
  }

  /** Weekly: exactly seven days per paid installment after the start. */
  lemma NextDueDateWeekly(c: Client)
    requires c.tipoPagamento == Weekly && ParseIsoDate(c.vencimento).Some?
    ensures var start := ParseIsoDate(c.vencimento).value;
      var r := CalculateNextDueDate(c);
      r.Some? && DayNumber(r.value) == DayNumber(start) + 7 * c.parcelaAtual
  {
    assert c.vencimento != "";
  }

  /** Any other payment type (the form's "unica"): the start date, whatever
      the number of installments paid. */
  lemma NextDueDateSinglePayment(c: Client, paid: nat)
    requires c.tipoPagamento != Monthly && c.tipoPagamento != Weekly
    requires ParseIsoDate(c.vencimento).Some?
    ensures CalculateNextDueDate(c) == ParseIsoDate(c.vencimento)
    ensures CalculateNextDueDate(c.(parcelaAtual := paid)) == CalculateNextDueDate(c)
  {
    assert c.vencimento != "";
  }

  /** With nothing paid the next installment is the first one, due on the
      start date, for every payment type. */
  lemma NextDueDateFirstInstallment(c: Client)
    requires c.parcelaAtual == 0
    ensures CalculateNextDueDate(c) == ParseIsoDate(c.vencimento)
  {
    if c.vencimento != "" && ParseIsoDate(c.vencimento).Some? && c.tipoPagamento == Weekly {
      AddDaysOrder(ParseIsoDate(c.vencimento).value, 0);
    }
  }

  /** The next due date is never before the start date. */
  lemma NextDueDateNotBeforeStart(c: Client)
    requires ParseIsoDate(c.vencimento).Some?
    ensures OnOrBefore(ParseIsoDate(c.vencimento).value, CalculateNextDueDate(c).value)
  {
    var start := ParseIsoDate(c.vencimento).value;
    if c.tipoPagamento == Weekly {
      AddDaysOrder(start, 7 * c.parcelaAtual);
    }
  }

  // ---------------------------------------------------------------------
  // The pending-charges list
  // ---------------------------------------------------------------------

  /** No start date, or every installment already paid: never pending. */
  predicate OutOfSchedule(c: Client) {
    c.vencimento == "" || c.parcelaAtual >= c.totalParcelas
  }

  /** The record is in schedule and its next due date is today or already
      past (`isToday || isPast`). */
  predicate IsDue(c: Client, today: Date)
    ensures IsDue(c, today) ==>
      c.vencimento != "" && c.parcelaAtual < c.totalParcelas && CalculateNextDueDate(c).Some?
  {
    && !OutOfSchedule(c)
    && match CalculateNextDueDate(c)
       case Some(n) => OnOrBefore(n, today)
       case None => false
  }

  /** The next due date is past and not today (`!isToday && isPast`). An
      overdue record in schedule is also due. */
  predicate IsOverdue(c: Client, today: Date)
    ensures IsOverdue(c, today) ==>
      CalculateNextDueDate(c).Some? && CalculateNextDueDate(c).value != today
    ensures IsOverdue(c, today) && !OutOfSchedule(c) ==> IsDue(c, today)
  {
    match CalculateNextDueDate(c)
    case Some(n) => Before(n, today)
    case None => false
  }

  /** The `filter` step: the records whose next installment is due. */
  function SelectDue(cs: seq<Client>, today: Date): (r: seq<Client>)
    ensures |r| <= |cs|
    ensures forall c :: c in r <==> c in cs && IsDue(c, today)
  {
    Filter(cs, c => IsDue(c, today))
  }

  /** The `map` step: each record with its overdue flag. */
  function TagEntries(cs: seq<Client>, today: Date): (r: seq<Entry>)
    ensures |r| == |cs|
    ensures forall i :: 0 <= i < |cs| ==> r[i].client == cs[i]
  {
    if cs == [] then [] else [Entry(cs[0], IsOverdue(cs[0], today))] + TagEntries(cs[1..], today)
  }

  predicate Flagged(e: Entry) { e.isOverdue }
  predicate Unflagged(e: Entry) { !e.isOverdue }

  /** The `sort` step: overdue entries first, each group in its input order. */
  function OverdueFirst(es: seq<Entry>): (r: seq<Entry>)
    ensures |r| == |es|
    ensures multiset(r) == multiset(es)
    ensures forall i, j :: 0 <= i < j < |r| && r[j].isOverdue ==> r[i].isOverdue
  {
    FilterSplitMultiset(es, Flagged, Unflagged);
    var over, rest := Filter(es, Flagged), Filter(es, Unflagged);
    FlaggedThenUnflagged(over, rest);
    assert |multiset(over + rest)| == |over + rest|;
    over + rest
  }

  lemma FlaggedThenUnflagged(over: seq<Entry>, rest: seq<Entry>)
    requires forall e :: e in over ==> e.isOverdue
    requires forall e :: e in rest ==> !e.isOverdue
    ensures var r := over + rest;
      forall i, j :: 0 <= i < j < |r| && r[j].isOverdue ==> r[i].isOverdue
  {
    var r := over + rest;
    forall i, j | 0 <= i < j < |r| && r[j].isOverdue
      ensures r[i].isOverdue
    {
      assert r[i] in over;
    }
  }

  /** The list of pending charges (`dueClients`). */
  function DueClients(cs: seq<Client>, today: Date): (r: seq<Entry>)
    ensures forall e :: e in r ==> e.client in cs && !OutOfSchedule(e.client)
  {
    var tagged := TagEntries(SelectDue(cs, today), today);
    forall e | e in tagged
      ensures e.client in SelectDue(cs, today)
    {
      var i :| 0 <= i < |tagged| && tagged[i] == e;
    }
    assert forall e :: e in OverdueFirst(tagged) ==> e in multiset(tagged);
    OverdueFirst(tagged)
  }

  lemma TagEntriesMembership(cs: seq<Client>, today: Date, e: Entry)
    ensures e in TagEntries(cs, today) <==> e.client in cs && e.isOverdue == IsOverdue(e.client, today)
  {
    var r := TagEntries(cs, today);
    if e.client in cs && e.isOverdue == IsOverdue(e.client, today) {
      var i :| 0 <= i < |cs| && cs[i] == e.client;
      TagEntriesFlags(cs, today);
      assert r[i] == e;
    }
  }

  lemma {:induction false} TagEntriesFlags(cs: seq<Client>, today: Date)
    ensures forall i :: 0 <= i < |cs| ==> TagEntries(cs, today)[i].isOverdue == IsOverdue(cs[i], today)
  {
    if cs != [] {
      TagEntriesFlags(cs[1..], today);
    }
  }

  /** A record is on the list, with the flag it should carry, exactly when it
      is in the input and due; nothing else is on it. */
  lemma DueClientsMembership(cs: seq<Client>, today: Date, e: Entry)
    ensures e in DueClients(cs, today)
      <==> e.client in cs && IsDue(e.client, today) && e.isOverdue == IsOverdue(e.client, today)
  {
    var tagged := TagEntries(SelectDue(cs, today), today);
    TagEntriesMembership(SelectDue(cs, today), today, e);
    assert e in DueClients(cs, today) <==> e in tagged;
  }

  /** Every pending entry has a next due date on or before today; it is
      flagged overdue exactly when that date is before today, so an unflagged
      entry is due today. */
  lemma DueClientsFlags(cs: seq<Client>, today: Date)
    ensures forall e :: e in DueClients(cs, today) ==>
      var n := CalculateNextDueDate(e.client);
      && n.Some?
      && OnOrBefore(n.value, today)
      && (e.isOverdue <==> Before(n.value, today))
      && (!e.isOverdue ==> n.value == today)
  {
    forall e | e in DueClients(cs, today) {
      DueClientsMembership(cs, today, e);
    }
  }

  /** No unflagged entry comes before a flagged one. */
  lemma DueClientsOverdueFirst(cs: seq<Client>, today: Date)
    ensures var r := DueClients(cs, today);
      forall i, j :: 0 <= i < j < |r| && r[j].isOverdue ==> r[i].isOverdue
  {
    var tagged := TagEntries(SelectDue(cs, today), today);
    var over, rest := Filter(tagged, Flagged), Filter(tagged, Unflagged);
    var r := DueClients(cs, today);
    assert r == over + rest;
    forall i, j | 0 <= i < j < |r| && r[j].isOverdue
      ensures r[i].isOverdue
    {
      assert r[i] in over;
    }
  }

  /** The reordering is stable and loses nothing: within each group the
      entries keep the order of the input, and the list is a permutation of
      the tagged records. */
  lemma DueClientsStable(cs: seq<Client>, today: Date)
    ensures var tagged := TagEntries(SelectDue(cs, today), today);
      var r := DueClients(cs, today);
      && Filter(r, Flagged) == Filter(tagged, Flagged)
      && Filter(r, Unflagged) == Filter(tagged, Unflagged)
      && multiset(r) == multiset(tagged)
  {
    var tagged := TagEntries(SelectDue(cs, today), today);
    var over, rest := Filter(tagged, Flagged), Filter(tagged, Unflagged);
    FilterConcat(over, rest, Flagged);
    FilterConcat(over, rest, Unflagged);
    FilterIdempotent(tagged, Flagged);
    FilterIdempotent(tagged, Unflagged);
    FilterNone(rest, Flagged);
    FilterNone(over, Unflagged);
    FilterSplitMultiset(tagged, Flagged, Unflagged);
  }

  // ---------------------------------------------------------------------
  // The source's sort, as a stable sort with its comparator
  // ---------------------------------------------------------------------

  /** The comparator `(b.isOverdue ? 1 : 0) - (a.isOverdue ? 1 : 0)`:
      negative when `a` must come before `b`. */
  function SortCompare(a: Entry, b: Entry): int {
    (if b.isOverdue then 1 else 0) - (if a.isOverdue then 1 else 0)
  }

  /** Inserts `x` into `sorted` after every element that does not compare
      greater than it: the step of a stable insertion sort. */
  function InsertStable(sorted: seq<Entry>, x: Entry): seq<Entry> {
    if sorted == [] then [x]
    else if SortCompare(sorted[|sorted| - 1], x) <= 0 then sorted + [x]
    else InsertStable(sorted[..|sorted| - 1], x) + [sorted[|sorted| - 1]]
  }

  /** A stable sort by `SortCompare` (`Array.prototype.sort` is stable). */
  function StableSort(s: seq<Entry>): seq<Entry> {
    if s == [] then [] else InsertStable(StableSort(s[..|s| - 1]), s[|s| - 1])
  }

  lemma {:induction false} InsertFlagged(over: seq<Entry>, rest: seq<Entry>, x: Entry)
    requires forall e :: e in over ==> e.isOverdue
    requires forall e :: e in rest ==> !e.isOverdue
    requires x.isOverdue
    ensures InsertStable(over + rest, x) == over + [x] + rest
  {
    if rest == [] {
      assert over + rest == over;
      if over != [] {
        assert over[|over| - 1] in over;
      }
    } else {
      var s := over + rest;
      var last := rest[|rest| - 1];
      assert last in rest;
      assert s[|s| - 1] == last;
      assert s[..|s| - 1] == over + rest[..|rest| - 1];
      InsertFlagged(over, rest[..|rest| - 1], x);
      assert rest == rest[..|rest| - 1] + [last];
    }
  }

  lemma InsertUnflagged(sorted: seq<Entry>, x: Entry)
    requires !x.isOverdue
    ensures InsertStable(sorted, x) == sorted + [x]
  {
  }

  lemma StableSortSnoc(init: seq<Entry>, x: Entry)
    ensures StableSort(init + [x]) == InsertStable(StableSort(init), x)
  {
    var s := init + [x];
    assert s[..|s| - 1] == init;
  }

  lemma OverdueFirstSnoc(init: seq<Entry>, x: Entry)
    ensures var over, rest := Filter(init, Flagged), Filter(init, Unflagged);
      OverdueFirst(init + [x]) == if x.isOverdue then over + [x] + rest else over + rest + [x]
  {
    FilterSnoc(init, x, Flagged);
    FilterSnoc(init, x, Unflagged);
  }

  /** Sorting with the source's comparator gives exactly the overdue-first
      partition: the two descriptions of the due list agree on every input. */
  lemma {:induction false} StableSortIsOverdueFirst(s: seq<Entry>)
    ensures StableSort(s) == OverdueFirst(s)
    decreases |s|
  {
    if s != [] {
      var init, x := s[..|s| - 1], s[|s| - 1];
      assert s == init + [x];
      StableSortSnoc(init, x);
      OverdueFirstSnoc(init, x);
      StableSortIsOverdueFirst(init);
      var over, rest := Filter(init, Flagged), Filter(init, Unflagged);
      if x.isOverdue {
        InsertFlagged(over, rest, x);
      } else {
        InsertUnflagged(over + rest, x);
      }
    }
  }

  // ---------------------------------------------------------------------
  // processedAllClients
  // ---------------------------------------------------------------------

  /** One record of the full list: out-of-schedule records are never overdue. */
  function ProcessClient(c: Client, today: Date): (e: Entry)
    ensures e.client == c
    ensures e.isOverdue ==> !OutOfSchedule(c) && IsDue(c, today)
  {
    if OutOfSchedule(c) then Entry(c, false) else Entry(c, IsOverdue(c, today))
  }

  /** The full client list: every record, in input order, with its flag. */
  function ProcessedAllClients(cs: seq<Client>, today: Date): (r: seq<Entry>)
    ensures |r| == |cs|
    ensures forall i :: 0 <= i < |cs| ==> r[i].client == cs[i]
  {
    if cs == [] then [] else [ProcessClient(cs[0], today)] + ProcessedAllClients(cs[1..], today)
  }

  lemma {:induction false} ProcessedAllFlags(cs: seq<Client>, today: Date)
    ensures forall i :: 0 <= i < |cs| ==>
      ProcessedAllClients(cs, today)[i] == ProcessClient(cs[i], today)
  {
    if cs != [] {
      ProcessedAllFlags(cs[1..], today);
    }
  }

  /** A record of the full list is flagged exactly when the same record sits
      flagged on the pending list; finished and undated records never are. */
  lemma ProcessedAllMatchesDueList(cs: seq<Client>, today: Date, i: nat)
    requires i < |cs|
    ensures var e := ProcessedAllClients(cs, today)[i];
      && (OutOfSchedule(cs[i]) ==> !e.isOverdue)
      && (e.isOverdue <==> Entry(cs[i], true) in DueClients(cs, today))
  {
    ProcessedAllFlags(cs, today);
    DueClientsMembership(cs, today, Entry(cs[i], true));
  }

  lemma SelectDueCons(cs: seq<Client>, today: Date)
    requires cs != []
    ensures SelectDue(cs, today)
      == (if IsDue(cs[0], today) then [cs[0]] else []) + SelectDue(cs[1..], today)
  {
  }

  /** The flagged records of the full list and of the pending list are the
      same records in the same order. */
  lemma {:induction false} ProcessedAllOverdueInOrder(cs: seq<Client>, today: Date)
    ensures Filter(ProcessedAllClients(cs, today), Flagged)
      == Filter(DueClients(cs, today), Flagged)
  {
    DueClientsStable(cs, today);
    OverdueTaggedInOrder(cs, today);
  }

  lemma {:induction false} OverdueTaggedInOrder(cs: seq<Client>, today: Date)
    ensures Filter(ProcessedAllClients(cs, today), Flagged)
      == Filter(TagEntries(SelectDue(cs, today), today), Flagged)
  {
    if cs != [] {
      OverdueTaggedInOrder(cs[1..], today);
      SelectDueCons(cs, today);
      var head := if IsDue(cs[0], today) then [cs[0]] else [];
      assert TagEntries(head + SelectDue(cs[1..], today), today)
        == TagEntries(head, today) + TagEntries(SelectDue(cs[1..], today), today) by {
        if head != [] {
          assert (head + SelectDue(cs[1..], today))[1..] == SelectDue(cs[1..], today);
        } else {
          assert head + SelectDue(cs[1..], today) == SelectDue(cs[1..], today);
        }
      }
      FilterConcat(TagEntries(head, today), TagEntries(SelectDue(cs[1..], today), today), Flagged);
      FilterConcat([ProcessClient(cs[0], today)], ProcessedAllClients(cs[1..], today), Flagged);
      assert ProcessedAllClients(cs, today) == [ProcessClient(cs[0], today)] + ProcessedAllClients(cs[1..], today);
    }
  }

  // ---------------------------------------------------------------------
  // Worked examples
  // ---------------------------------------------------------------------

  lemma ParseExample()
    ensures ParseIsoDate("2024-01-15") == Some(Date(2024, 1, 15))
  {
    ParseFormatRoundTrip(Date(2024, 1, 15));
    assert FormatIsoDate(Date(2024, 1, 15)) == "2024-01-15";
  }

  /** A monthly plan started 2024-01-15 with two installments paid is due on
      2024-03-15: pending but not overdue that day, overdue five days later,
      not yet pending the day before. */
  lemma MonthlyPlanExample()
    ensures var c := Client("2024-01-15", Monthly, 2, 12, map[]);
      && CalculateNextDueDate(c) == Some(Date(2024, 3, 15))
      && DueClients([c], Date(2024, 3, 15)) == [Entry(c, false)]
      && DueClients([c], Date(2024, 3, 20)) == [Entry(c, true)]
      && DueClients([c], Date(2024, 3, 14)) == []
  {
    var c := Client("2024-01-15", Monthly, 2, 12, map[]);
    ParseExample();
    assert CalculateNextDueDate(c) == Some(Date(2024, 3, 15));
    DueClientsSingle(c, Date(2024, 3, 15));
    DueClientsSingle(c, Date(2024, 3, 20));
    DueClientsSingle(c, Date(2024, 3, 14));
  }

  lemma DueClientsSingle(c: Client, today: Date)
    ensures DueClients([c], today)
      == if IsDue(c, today) then [Entry(c, IsOverdue(c, today))] else []
  {
    assert [c][1..] == [];
    var tagged := TagEntries(SelectDue([c], today), today);
    if IsDue(c, today) {
      assert SelectDue([c], today) == [c];
      assert tagged == [Entry(c, IsOverdue(c, today))];
      assert tagged[1..] == [];
    } else {
      assert SelectDue([c], today) == [];
    }
  }
}
