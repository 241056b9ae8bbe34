/** What the book-based simulators know by a given time: finished trades never look ahead; an entry does, at one
    point, because a trade is only taken when the book for its exit exists. */
module TimedCausality {
  import opened Basics
  import opened Lookups
  import opened TimedSimulators

  // ---------------------------------------------------------------------------------------------
  // Both simulators as one loop over candidates

  /** A moment at which a trade may be opened, and whether its signal passes. */
  datatype Candidate = Candidate(at: int, passes: bool)

  datatype Taken = Taken(at: int, entry: Book, exit: Book)

  function CandidateTs(c: Candidate): int { c.at }

  function TakenFrom(books: seq<Book>, candidates: seq<Candidate>, hold: int, until: Option<int>): seq<Taken> {
    if candidates == [] then []
    else
      var c := candidates[0];
      var entry, exit := BookAt(books, c.at), BookAt(books, c.at + hold);
      if !Blocked(c.at, until) && c.passes && entry.Some? && exit.Some? then
        [Taken(c.at, entry.value, exit.value)] + TakenFrom(books, candidates[1..], hold, Some(exit.value.ts))
      else TakenFrom(books, candidates[1..], hold, until)
  }

  // ---------------------------------------------------------------------------------------------
  // What is known by a time

  function BooksBy(books: seq<Book>, t: int): seq<Book> {
    if books == [] then [] else (if books[0].ts <= t then [books[0]] else []) + BooksBy(books[1..], t)
  }

  function CandidatesBy(candidates: seq<Candidate>, t: int): seq<Candidate> {
    if candidates == [] then []
    else (if candidates[0].at <= t then [candidates[0]] else []) + CandidatesBy(candidates[1..], t)
  }

  function ExitedBy(taken: seq<Taken>, t: int): seq<Taken> {
    if taken == [] then [] else (if taken[0].exit.ts <= t then [taken[0]] else []) + ExitedBy(taken[1..], t)
  }

  /** The books entered at by `t`. */
  function EnteredBy(taken: seq<Taken>, t: int): seq<Book> {
    if taken == [] then [] else (if taken[0].entry.ts <= t then [taken[0].entry] else []) + EnteredBy(taken[1..], t)
  }

  function Entries(taken: seq<Taken>): seq<Book> {
    if taken == [] then [] else [taken[0].entry] + Entries(taken[1..])
  }

  lemma TailSorted<T>(items: seq<T>, at: T -> int)
    requires SortedBy(items, at) && items != []
    ensures SortedBy(items[1..], at)
    ensures forall j :: 0 <= j < |items| ==> at(items[0]) <= at(items[j])
  {
  }

  lemma {:induction false} NoBooksBy(books: seq<Book>, t: int)
    requires forall j :: 0 <= j < |books| ==> t < books[j].ts
    ensures BooksBy(books, t) == []
  {
    if books != [] {
      NoBooksBy(books[1..], t);
    }
  }

  function Known(book: Option<Book>, t: int): Option<Book> {
    if book.Some? && book.value.ts <= t then book else None
  }

  /** Looking a time up in the known books finds what the whole list has for it, if that is known. */
  lemma {:induction false} BookAtKnown(books: seq<Book>, t: int, u: int)
    requires SortedBy(books, BookTs)
    ensures BookAt(BooksBy(books, t), u) == Known(BookAt(books, u), t)
  {
    if books != [] {
      TailSorted(books, BookTs);
      assert forall j :: 0 <= j < |books| ==> BookTs(books[0]) <= BookTs(books[j]);
      var rest := books[1..];
      BookAtKnown(rest, t, u);
      BookAtStep(books, u);
      if books[0].ts <= t {
        assert BooksBy(books, t)[1..] == BooksBy(rest, t);
        BookAtStep(BooksBy(books, t), u);
      } else {
        NoBooksBy(rest, t);
        assert BooksBy(books, t) == [];
      }
    }
  }

  lemma BookAtStep(books: seq<Book>, u: int)
    requires books != []
    ensures BookAt(books, u) == if books[0].ts >= u then Some(books[0]) else BookAt(books[1..], u)
  {
  }

  lemma {:induction false} NoCandidatesBy(candidates: seq<Candidate>, t: int)
    requires forall j :: 0 <= j < |candidates| ==> t < candidates[j].at
    ensures CandidatesBy(candidates, t) == []
  {
    if candidates != [] {
      NoCandidatesBy(candidates[1..], t);
    }
  }

  // ---------------------------------------------------------------------------------------------
  // Finished trades

  /** No candidate can exit by `t`, for want of a book known by then. */
  ghost predicate NoneCanExit(books: seq<Book>, candidates: seq<Candidate>, hold: int, t: int) {
    forall j :: 0 <= j < |candidates| ==> Known(BookAt(books, candidates[j].at + hold), t).None?
  }

  lemma {:induction false} NothingExits(
    books: seq<Book>, candidates: seq<Candidate>, hold: int, until: Option<int>, t: int)
    requires NoneCanExit(books, candidates, hold, t)
    ensures ExitedBy(TakenFrom(books, candidates, hold, until), t) == []
  {
    hide BookAt;
    if candidates != [] {
      var c := candidates[0];
      assert Known(BookAt(books, c.at + hold), t).None?;
      var exit := BookAt(books, c.at + hold);
      NothingExits(books, candidates[1..], hold, until, t);
      if exit.Some? {
        NothingExits(books, candidates[1..], hold, Some(exit.value.ts), t);
      }
    }
  }

  /** In sorted order nothing after a candidate that cannot exit by `t` can. */
  lemma LaterCannotExit(books: seq<Book>, candidates: seq<Candidate>, hold: int, t: int)
    requires SortedBy(books, BookTs) && SortedBy(candidates, CandidateTs) && candidates != []
    requires Known(BookAt(books, candidates[0].at + hold), t).None?
    ensures NoneCanExit(books, candidates, hold, t)
  {
    hide BookAt;
    TailSorted(candidates, CandidateTs);
    forall j | 0 <= j < |candidates| ensures Known(BookAt(books, candidates[j].at + hold), t).None? {
      assert CandidateTs(candidates[0]) <= CandidateTs(candidates[j]);
      BooksInOrder(books, candidates[0].at + hold, candidates[j].at + hold);
    }
  }

  /** A candidate after `t` cannot exit by `t`. */
  lemma LateCannotExit(books: seq<Book>, at: int, hold: int, t: int)
    requires SortedBy(books, BookTs) && hold >= 0 && t < at
    ensures Known(BookAt(books, at + hold), t).None?
  {
    hide BookAt;
    BooksInOrder(books, at + hold, at + hold);
  }

  /** Finished trades are causal: those that have exited by `t` are the trades of a simulation that knows only the
      books and candidates by `t`. */
  lemma {:induction false} ExitsAreCausal(
    books: seq<Book>, candidates: seq<Candidate>, hold: int, until: Option<int>, t: int)
    requires SortedBy(books, BookTs) && SortedBy(candidates, CandidateTs) && hold >= 0
    ensures ExitedBy(TakenFrom(books, candidates, hold, until), t)
         == TakenFrom(BooksBy(books, t), CandidatesBy(candidates, t), hold, until)
  {
    hide BookAt, BooksBy, SortedBy;
    if candidates != [] {
      var c, rest, known := candidates[0], candidates[1..], BooksBy(books, t);
      TailSorted(candidates, CandidateTs);
      BookAtKnown(books, t, c.at);
      BookAtKnown(books, t, c.at + hold);
      var exit := BookAt(books, c.at + hold);
      if t < c.at || Known(exit, t).None? {
        if t < c.at {
          LateCannotExit(books, c.at, hold, t);
        }
        LaterCannotExit(books, candidates, hold, t);
        NothingExits(books, candidates, hold, until, t);
        NothingTaken(books, candidates, hold, until, t);
      } else {
        BooksInOrder(books, c.at, c.at + hold);
        CandidatesStep(candidates, t);
        ExitsAreCausal(books, rest, hold, until, t);
        ExitsAreCausal(books, rest, hold, Some(exit.value.ts), t);
      }
    }
  }

  lemma CandidatesStep(candidates: seq<Candidate>, t: int)
    requires candidates != [] && candidates[0].at <= t
    ensures var known := CandidatesBy(candidates, t);
            known != [] && known[0] == candidates[0] && known[1..] == CandidatesBy(candidates[1..], t)
  {
  }

  /** Where no candidate can exit by `t`, knowing only what is known by `t` takes no trade at all. */
  lemma {:induction false} NothingTaken(
    books: seq<Book>, candidates: seq<Candidate>, hold: int, until: Option<int>, t: int)
    requires SortedBy(books, BookTs) && NoneCanExit(books, candidates, hold, t)
    ensures TakenFrom(BooksBy(books, t), CandidatesBy(candidates, t), hold, until) == []
  {
    hide BookAt, BooksBy, SortedBy;
    if candidates != [] {
      assert Known(BookAt(books, candidates[0].at + hold), t).None?;
      BookAtKnown(books, t, candidates[0].at + hold);
      NothingTaken(books, candidates[1..], hold, until, t);
      if candidates[0].at <= t {
        CandidatesStep(candidates, t);
      } else {
        assert CandidatesBy(candidates, t) == CandidatesBy(candidates[1..], t);
      }
    }
  }

  // ---------------------------------------------------------------------------------------------
  // Entries

  /** The trade that is pending at the end of what is known: its entry book, and when it wants to exit. */
  function Pending(known: seq<Book>, candidates: seq<Candidate>, hold: int, until: Option<int>): Option<(Book, int)> {
    if candidates == [] then None
    else
      var c := candidates[0];
      var entry, exit := BookAt(known, c.at), BookAt(known, c.at + hold);
      if Blocked(c.at, until) || !c.passes then Pending(known, candidates[1..], hold, until)
      else if exit.Some? then Pending(known, candidates[1..], hold, Some(exit.value.ts))
      else if entry.Some? then Some((entry.value, c.at + hold))
      else None
  }

  /** The trade pending at `t`, from what is known by then. */
  function PendingAt(books: seq<Book>, candidates: seq<Candidate>, hold: int, until: Option<int>, t: int)
    : Option<(Book, int)>
  {
    Pending(BooksBy(books, t), CandidatesBy(candidates, t), hold, until)
  }

  /** The entries of the trades finished by `t`. */
  function KnownEntries(books: seq<Book>, candidates: seq<Candidate>, hold: int, until: Option<int>, t: int)
    : seq<Book>
  {
    Entries(TakenFrom(BooksBy(books, t), CandidatesBy(candidates, t), hold, until))
  }

  /** What the pending trade adds to the entries, depending on whether a book for its exit ever comes. */
  function PendingEntry(books: seq<Book>, pending: Option<(Book, int)>): seq<Book> {
    if pending.Some? && BookAt(books, pending.value.1).Some? then [pending.value.0] else []
  }

  lemma {:induction false} NothingEnters(
    books: seq<Book>, candidates: seq<Candidate>, hold: int, until: Option<int>, t: int)
    requires forall j :: 0 <= j < |candidates| ==>
               Blocked(candidates[j].at, until) || Known(BookAt(books, candidates[j].at), t).None?
    requires SortedBy(books, BookTs) && SortedBy(candidates, CandidateTs) && hold >= 0
    requires until.Some? ==> t < until.value
    ensures EnteredBy(TakenFrom(books, candidates, hold, until), t) == []
  {
    hide BookAt, SortedBy;
    if candidates != [] {
      var c, rest := candidates[0], candidates[1..];
      TailSorted(candidates, CandidateTs);
      NothingEnters(books, rest, hold, until, t);
      var entry, exit := BookAt(books, c.at), BookAt(books, c.at + hold);
      if !Blocked(c.at, until) && c.passes && entry.Some? && exit.Some? {
        BooksInOrder(books, c.at, c.at + hold);
        forall j | 0 <= j < |rest|
          ensures Blocked(rest[j].at, Some(exit.value.ts)) || Known(BookAt(books, rest[j].at), t).None?
        {
          BooksInOrder(books, rest[j].at, rest[j].at);
        }
        NothingEnters(books, rest, hold, Some(exit.value.ts), t);
      }
    }
  }

  lemma {:induction false} NothingWithoutExit(
    books: seq<Book>, candidates: seq<Candidate>, hold: int, until: Option<int>)
    requires forall j :: 0 <= j < |candidates| ==> BookAt(books, candidates[j].at + hold).None?
    ensures TakenFrom(books, candidates, hold, until) == []
  {
    hide BookAt;
    if candidates != [] {
      assert BookAt(books, candidates[0].at + hold).None?;
      NothingWithoutExit(books, candidates[1..], hold, until);
    }
  }

  /** The entries by `t` are those of the finished trades and, if the books ever reach its exit, the pending one. */
  lemma {:induction false} EntriesByTime(
    books: seq<Book>, candidates: seq<Candidate>, hold: int, until: Option<int>, t: int)
    requires SortedBy(books, BookTs) && SortedBy(candidates, CandidateTs) && hold >= 0
    requires until.Some? ==> until.value <= t
    ensures EnteredBy(TakenFrom(books, candidates, hold, until), t)
         == KnownEntries(books, candidates, hold, until, t)
          + PendingEntry(books, PendingAt(books, candidates, hold, until, t))
  {
    hide BookAt, BooksBy, SortedBy, PendingEntry;
    var known := BooksBy(books, t);
    if candidates == [] {
      NoPendingEntry(books);
    } else {
      var c, rest := candidates[0], candidates[1..];
      TailSorted(candidates, CandidateTs);
      BookAtKnown(books, t, c.at);
      BookAtKnown(books, t, c.at + hold);
      BooksInOrder(books, c.at, c.at + hold);
      if t < c.at {
        EntriesAfter(books, candidates, hold, until, t);
      } else {
        CandidatesStep(candidates, t);
        if Blocked(c.at, until) || !c.passes {
          EntriesByTime(books, rest, hold, until, t);
        } else if Known(BookAt(books, c.at + hold), t).Some? {
          EntriesByTime(books, rest, hold, Some(BookAt(books, c.at + hold).value.ts), t);
        } else {
          EntriesAtPending(books, candidates, hold, until, t);
        }
      }
    }
  }

  lemma NoPendingEntry(books: seq<Book>)
    ensures PendingEntry(books, None) == []
  {
  }

  /** No candidate by `t`: nothing enters. */
  lemma EntriesAfter(books: seq<Book>, candidates: seq<Candidate>, hold: int, until: Option<int>, t: int)
    requires SortedBy(books, BookTs) && SortedBy(candidates, CandidateTs) && hold >= 0
    requires candidates != [] && t < candidates[0].at && (until.Some? ==> until.value <= t)
    ensures EnteredBy(TakenFrom(books, candidates, hold, until), t) == []
    ensures CandidatesBy(candidates, t) == []
    ensures PendingEntry(books, None) == []
  {
    hide BookAt, SortedBy;
    TailSorted(candidates, CandidateTs);
    forall j | 0 <= j < |candidates|
      ensures t < candidates[j].at && !Blocked(candidates[j].at, until)
      ensures Known(BookAt(books, candidates[j].at), t).None?
    {
      assert CandidateTs(candidates[0]) <= CandidateTs(candidates[j]);
      BooksInOrder(books, candidates[j].at, candidates[j].at);
    }
    NoCandidatesBy(candidates, t);
    UntilIrrelevant(books, candidates, hold, until);
    NothingEnters(books, candidates, hold, None, t);
  }

  /** A block that is over makes no difference. */
  lemma {:induction false} UntilIrrelevant(books: seq<Book>, candidates: seq<Candidate>, hold: int, until: Option<int>)
    requires forall j :: 0 <= j < |candidates| ==> !Blocked(candidates[j].at, until)
    ensures TakenFrom(books, candidates, hold, until) == TakenFrom(books, candidates, hold, None)
  {
    hide BookAt;
    if candidates != [] {
      assert !Blocked(candidates[0].at, until);
      UntilIrrelevant(books, candidates[1..], hold, until);
    }
  }

  /** At the first open candidate without a known exit: it is entered iff the books reach its exit, and nothing else
      is entered by `t`. */
  lemma EntriesAtPending(books: seq<Book>, candidates: seq<Candidate>, hold: int, until: Option<int>, t: int)
    requires SortedBy(books, BookTs) && SortedBy(candidates, CandidateTs) && hold >= 0 && candidates != []
    requires var c := candidates[0];
             c.at <= t && !Blocked(c.at, until) && c.passes && Known(BookAt(books, c.at + hold), t).None?
    ensures EnteredBy(TakenFrom(books, candidates, hold, until), t)
         == KnownEntries(books, candidates, hold, until, t)
          + PendingEntry(books, PendingAt(books, candidates, hold, until, t))
  {
    hide BookAt, BooksBy, SortedBy;
    var c, rest := candidates[0], candidates[1..];
    BookAtKnown(books, t, c.at);
    BookAtKnown(books, t, c.at + hold);
    CandidatesStep(candidates, t);
    LaterCannotExit(books, candidates, hold, t);
    NothingTaken(books, candidates, hold, until, t);
    BooksInOrder(books, c.at, c.at + hold);
    TailSorted(candidates, CandidateTs);
    var exit := BookAt(books, c.at + hold);
    if exit.Some? {
      forall j | 0 <= j < |rest|
        ensures Blocked(rest[j].at, Some(exit.value.ts)) || Known(BookAt(books, rest[j].at), t).None?
      {
        BooksInOrder(books, rest[j].at, rest[j].at);
      }
      NothingEnters(books, rest, hold, Some(exit.value.ts), t);
    } else {
      forall j | 0 <= j < |candidates| ensures BookAt(books, candidates[j].at + hold).None? {
        assert CandidateTs(candidates[0]) <= CandidateTs(candidates[j]);
        BooksInOrder(books, c.at + hold, candidates[j].at + hold);
      }
      NothingWithoutExit(books, candidates, hold, until);
    }
  }

  /** Nothing is pending, or both or neither of the book lists reach the pending trade's exit. */
  predicate SameFate(pending: Option<(Book, int)>, a: seq<Book>, b: seq<Book>) {
    pending.None? || (BookAt(a, pending.value.1).Some? <==> BookAt(b, pending.value.1).Some?)
  }

  /** Exactly when entries look ahead: two inputs that cannot be told apart by `t` give the same entries by `t` iff no
      trade is pending, or the books of both or of neither reach the pending trade's exit. */
  lemma EntriesAgreeIff(
    a: seq<Book>, ca: seq<Candidate>, b: seq<Book>, cb: seq<Candidate>, hold: int, t: int)
    requires SortedBy(a, BookTs) && SortedBy(b, BookTs) && hold >= 0
    requires SortedBy(ca, CandidateTs) && SortedBy(cb, CandidateTs)
    requires BooksBy(a, t) == BooksBy(b, t) && CandidatesBy(ca, t) == CandidatesBy(cb, t)
    ensures EnteredBy(TakenFrom(a, ca, hold, None), t) == EnteredBy(TakenFrom(b, cb, hold, None), t)
       <==> SameFate(PendingAt(a, ca, hold, None, t), a, b)
  {
    hide BookAt, BooksBy, CandidatesBy, TakenFrom, EnteredBy, Entries, Pending, SortedBy;
    EntriesByTime(a, ca, hold, None, t);
    EntriesByTime(b, cb, hold, None, t);
    var known, pending := KnownEntries(a, ca, hold, None, t), PendingAt(a, ca, hold, None, t);
    TailsDiffer(known, PendingEntry(a, pending), PendingEntry(b, pending));
  }

  lemma TailsDiffer(known: seq<Book>, s: seq<Book>, r: seq<Book>)
    ensures known + s == known + r <==> s == r
  {
    if known + s == known + r {
      assert (known + s)[|known|..] == s && (known + r)[|known|..] == r;
    }
  }

  /** The trade at time 1 that exits at 11 is taken iff the book at 11 is there. */
  lemma TakenInHindsight(now: Book, later: Book)
    requires now.ts == 1 && later.ts == 11
    ensures TakenFrom([now, later], [Candidate(1, true)], 10, None) == [Taken(1, now, later)]
    ensures TakenFrom([now], [Candidate(1, true)], 10, None) == []
  {
    hide BookAt;
    var both, candidates := [now, later], [Candidate(1, true)];
    assert both[1..] == [later] && [later][1..] == [] && [now][1..] == [] && candidates[1..] == [];
    BookAtStep(both, 1);
    BookAtStep(both, 11);
    BookAtStep([later], 11);
    BookAtStep([now], 1);
    BookAtStep([now], 11);
    NoBookAt(11);
  }

  lemma NoBookAt(u: int)
    ensures BookAt([], u).None?
  {
  }

  /** They do look ahead: with one book at time 1 and a signal there to hold for ten, the entry at 1 exists only once a
      book at 11 does. */
  lemma EntryLooksAhead(now: Book, later: Book)
    requires now.ts == 1 && later.ts == 11
    ensures BooksBy([now, later], 5) == BooksBy([now], 5)
    ensures EnteredBy(TakenFrom([now, later], [Candidate(1, true)], 10, None), 5) == [now]
    ensures EnteredBy(TakenFrom([now], [Candidate(1, true)], 10, None), 5) == []
  {
    hide TakenFrom;
    TakenInHindsight(now, later);
    assert [now, later][1..] == [later] && [later][1..] == [] && [now][1..] == [];
  }

  // ---------------------------------------------------------------------------------------------
  // The lead-lag simulator

  function LeadLagCandidates(signals: seq<Signal>, args: LeadLagArgs): seq<Candidate> {
    if signals == [] then []
    else [Candidate(signals[0].at + args.intervalMs, signals[0].passes)] + LeadLagCandidates(signals[1..], args)
  }

  function LeadLagOf(taken: seq<Taken>, args: LeadLagArgs): seq<Trade> {
    if taken == [] then []
    else
      [TradeOn(taken[0].entry, taken[0].exit, taken[0].entry.ts, args.notionalKrw, args.feeRate)]
      + LeadLagOf(taken[1..], args)
  }

  function Hold(args: LeadLagArgs): int {
    args.holdBars * args.intervalMs
  }

  lemma {:induction false} LeadLagIsTaken(books: seq<Book>, signals: seq<Signal>, args: LeadLagArgs, until: Option<int>)
    ensures LeadLagTrades(books, signals, args, until)
         == LeadLagOf(TakenFrom(books, LeadLagCandidates(signals, args), Hold(args), until), args)
  {
    hide BookAt, TradeOn;
    if signals != [] {
      LeadLagIsTaken(books, signals[1..], args, until);
      var candidates := LeadLagCandidates(signals, args);
      assert candidates[1..] == LeadLagCandidates(signals[1..], args);
      var trade := LeadLagTrade(books, args, signals[0].at);
      if trade.Some? {
        var exit := BookAt(books, signals[0].at + args.intervalMs + Hold(args)).value;
        LeadLagIsTaken(books, signals[1..], args, Some(exit.ts));
        TradeTimes(BookAt(books, signals[0].at + args.intervalMs).value, exit,
                   BookAt(books, signals[0].at + args.intervalMs).value.ts, args.notionalKrw, args.feeRate);
        TakenCons(books, candidates, Hold(args), until);
      }
    }
  }

  /** Prepending a taken trade. */
  lemma TakenCons(books: seq<Book>, candidates: seq<Candidate>, hold: int, until: Option<int>)
    requires candidates != []
    ensures var c := candidates[0];
            var entry, exit := BookAt(books, c.at), BookAt(books, c.at + hold);
            !Blocked(c.at, until) && c.passes && entry.Some? && exit.Some? ==>
              var taken := TakenFrom(books, candidates, hold, until);
              && taken != []
              && taken[0] == Taken(c.at, entry.value, exit.value)
              && taken[1..] == TakenFrom(books, candidates[1..], hold, Some(exit.value.ts))
  {
    hide BookAt;
  }

  /** So a lead-lag entry is only there in hindsight: whether the trade at time 1 exists depends on a book at 11. */
  lemma LeadLagEntryLooksAhead(now: Book, later: Book, args: LeadLagArgs)
    requires now.ts == 1 && later.ts == 11 && args.intervalMs == 1 && args.holdBars == 10
    ensures |LeadLagTrades([now, later], [Signal(0, true)], args, None)| == 1
    ensures LeadLagTrades([now], [Signal(0, true)], args, None) == []
  {
    hide TradeOn, TakenFrom, LeadLagTrades;
    var signals := [Signal(0, true)];
    assert signals[1..] == [];
    assert LeadLagCandidates(signals, args) == [Candidate(1, true)];
    TakenInHindsight(now, later);
    LeadLagIsTaken([now, later], signals, args, None);
    LeadLagIsTaken([now], signals, args, None);
  }

  /** The signals whose bar is complete by `t`. */
  function SignalsBy(signals: seq<Signal>, args: LeadLagArgs, t: int): seq<Signal> {
    if signals == [] then []
    else (if signals[0].at + args.intervalMs <= t then [signals[0]] else []) + SignalsBy(signals[1..], args, t)
  }

  function ExitedTrades(trades: seq<Trade>, t: int): seq<Trade> {
    if trades == [] then [] else (if trades[0].exitAt <= t then [trades[0]] else []) + ExitedTrades(trades[1..], t)
  }

  function SignalTs(s: Signal): int { s.at }

  lemma {:induction false} SignalsAreCandidates(signals: seq<Signal>, args: LeadLagArgs, t: int)
    requires SortedBy(signals, SignalTs)
    ensures CandidatesBy(LeadLagCandidates(signals, args), t) == LeadLagCandidates(SignalsBy(signals, args, t), args)
    ensures SortedBy(LeadLagCandidates(signals, args), CandidateTs)
    ensures |LeadLagCandidates(signals, args)| == |signals|
    ensures forall j :: 0 <= j < |signals| ==> LeadLagCandidates(signals, args)[j].at == signals[j].at + args.intervalMs
  {
    if signals != [] {
      TailSorted(signals, SignalTs);
      SignalsAreCandidates(signals[1..], args, t);
      var candidates := LeadLagCandidates(signals, args);
      assert candidates[1..] == LeadLagCandidates(signals[1..], args);
      if candidates[0].at <= t {
        CandidatesStep(candidates, t);
        assert SignalsBy(signals, args, t)[1..] == SignalsBy(signals[1..], args, t);
      } else {
        assert SignalsBy(signals, args, t) == SignalsBy(signals[1..], args, t);
        assert CandidatesBy(candidates, t) == CandidatesBy(candidates[1..], t);
      }
      forall j | 0 <= j < |signals| ensures candidates[j].at == signals[j].at + args.intervalMs {
        if j > 0 {
          assert candidates[j] == candidates[1..][j - 1];
        }
      }
      forall i, j | 0 <= i < j < |signals| ensures CandidateTs(candidates[i]) <= CandidateTs(candidates[j]) {
        assert SignalTs(signals[i]) <= SignalTs(signals[j]);
      }
    }
  }

  lemma {:induction false} LeadLagExits(taken: seq<Taken>, args: LeadLagArgs, t: int)
    ensures ExitedTrades(LeadLagOf(taken, args), t) == LeadLagOf(ExitedBy(taken, t), args)
  {
    hide TradeOn;
    if taken != [] {
      LeadLagExits(taken[1..], args, t);
      TradeTimes(taken[0].entry, taken[0].exit, taken[0].entry.ts, args.notionalKrw, args.feeRate);
      assert LeadLagOf(taken, args)[1..] == LeadLagOf(taken[1..], args);
      if taken[0].exit.ts <= t {
        assert ExitedBy(taken, t)[1..] == ExitedBy(taken[1..], t);
      } else {
        assert ExitedBy(taken, t) == ExitedBy(taken[1..], t);
        assert ExitedTrades(LeadLagOf(taken, args), t) == ExitedTrades(LeadLagOf(taken[1..], args), t);
      }
    }
  }

  /** The lead-lag trades that have exited by `t` are those of a simulation that knows only the books and signals
      by `t`. */
  lemma LeadLagIsCausal(books: seq<Book>, signals: seq<Signal>, args: LeadLagArgs, t: int)
    requires SortedBy(books, BookTs) && SortedBy(signals, SignalTs)
    ensures ExitedTrades(LeadLagTrades(books, signals, args, None), t)
         == LeadLagTrades(BooksBy(books, t), SignalsBy(signals, args, t), args, None)
  {
    hide TakenFrom, BooksBy, CandidatesBy, LeadLagOf, LeadLagTrades, ExitedTrades, LeadLagCandidates;
    HoldIsForward(args);
    LeadLagIsTaken(books, signals, args, None);
    LeadLagIsTaken(BooksBy(books, t), SignalsBy(signals, args, t), args, None);
    SignalsAreCandidates(signals, args, t);
    ExitsAreCausal(books, LeadLagCandidates(signals, args), Hold(args), None, t);
    LeadLagExits(TakenFrom(books, LeadLagCandidates(signals, args), Hold(args), None), args, t);
  }

  // ---------------------------------------------------------------------------------------------
  // The order-flow simulator

  /** The candidates from snapshot `i` on; each signal looks back into the whole list. */
  function FlowCandidates(snapshots: seq<Snapshot>, args: FlowArgs, i: nat): seq<Candidate>
    requires i <= |snapshots|
    decreases |snapshots| - i
  {
    if i == |snapshots| then []
    else
      var s := snapshots[i];
      [Candidate(s.ts, Passes(s, args, RecoveryBase(snapshots, args, s)))] + FlowCandidates(snapshots, args, i + 1)
  }

  function FlowOf(taken: seq<Taken>, args: FlowArgs): seq<Trade> {
    if taken == [] then []
    else
      [TradeOn(taken[0].entry, taken[0].exit, taken[0].at, args.notionalKrw, args.feeRate)] + FlowOf(taken[1..], args)
  }

  lemma {:induction false} FlowIsTaken(
    snapshots: seq<Snapshot>, books: seq<Book>, args: FlowArgs, i: nat, until: Option<int>)
    requires i <= |snapshots|
    ensures FlowTrades(snapshots, books, args, i, until)
         == FlowOf(TakenFrom(books, FlowCandidates(snapshots, args, i), args.horizonMs, until), args)
    decreases |snapshots| - i
  {
    hide BookAt, TradeOn, Passes, RecoveryBase;
    if i < |snapshots| {
      FlowIsTaken(snapshots, books, args, i + 1, until);
      var s, candidates := snapshots[i], FlowCandidates(snapshots, args, i);
      assert candidates[1..] == FlowCandidates(snapshots, args, i + 1);
      var trade := FlowTrade(books, args, s);
      if trade.Some? {
        var exit := BookAt(books, s.ts + args.horizonMs).value;
        FlowIsTaken(snapshots, books, args, i + 1, Some(exit.ts));
        TradeTimes(BookAt(books, s.ts).value, exit, s.ts, args.notionalKrw, args.feeRate);
        TakenCons(books, candidates, args.horizonMs, until);
      }
    }
  }

  /** The snapshots by `t`: a prefix, since they are sorted. */
  function SnapshotsBy(snapshots: seq<Snapshot>, t: int): seq<Snapshot> {
    snapshots[..FirstAtOrAfter(snapshots, SnapshotTs, t + 1)]
  }

  lemma {:induction false} LastInPrefix(snapshots: seq<Snapshot>, n: nat, target: int)
    requires n <= |snapshots| && forall j :: n <= j < |snapshots| ==> target < snapshots[j].ts
    ensures LastAtOrBefore(snapshots, SnapshotTs, target) == LastAtOrBefore(snapshots[..n], SnapshotTs, target)
  {
    var m := |snapshots| - 1;
    if n <= m {
      LastInPrefix(snapshots[..m], n, target);
      assert snapshots[..m][..n] == snapshots[..n];
    } else {
      assert snapshots[..n] == snapshots;
    }
  }

  /** Signals by `t` look no further than `t`. */
  lemma BaseInPrefix(snapshots: seq<Snapshot>, args: FlowArgs, n: nat, i: nat)
    requires SortedBy(snapshots, SnapshotTs) && i < n <= |snapshots| && args.recoveryLookbackMs >= 0
    requires n < |snapshots| ==> snapshots[i].ts < snapshots[n].ts
    ensures RecoveryBase(snapshots, args, snapshots[i]) == RecoveryBase(snapshots[..n], args, snapshots[..n][i])
  {
    forall j | n <= j < |snapshots| ensures snapshots[i].ts < snapshots[j].ts {
      assert SnapshotTs(snapshots[n]) <= SnapshotTs(snapshots[j]);
    }
    LastInPrefix(snapshots, n, snapshots[i].ts - args.recoveryLookbackMs);
  }

  lemma {:induction false} SnapshotsAreCandidates(snapshots: seq<Snapshot>, args: FlowArgs, t: int, n: nat, i: nat)
    requires SortedBy(snapshots, SnapshotTs) && args.recoveryLookbackMs >= 0 && i <= n <= |snapshots|
    requires n == FirstAtOrAfter(snapshots, SnapshotTs, t + 1)
    ensures CandidatesBy(FlowCandidates(snapshots, args, i), t) == FlowCandidates(snapshots[..n], args, i)
    decreases n - i
  {
    hide Passes, RecoveryBase, FirstAtOrAfter;
    FirstSeparates(snapshots, SnapshotTs, t + 1, n);
    if i < n {
      SnapshotsAreCandidates(snapshots, args, t, n, i + 1);
      assert SnapshotTs(snapshots[i]) < t + 1;
      BaseInPrefix(snapshots, args, n, i);
      CandidatesStep(FlowCandidates(snapshots, args, i), t);
      assert FlowCandidates(snapshots, args, i)[1..] == FlowCandidates(snapshots, args, i + 1);
    } else {
      FlowCandidateTimes(snapshots, args, i);
      forall j | i <= j < |snapshots| ensures t < snapshots[j].ts {
        assert SnapshotTs(snapshots[n]) <= SnapshotTs(snapshots[j]);
      }
      NoCandidatesBy(FlowCandidates(snapshots, args, i), t);
    }
  }

  lemma {:induction false} FlowCandidateTimes(snapshots: seq<Snapshot>, args: FlowArgs, i: nat)
    requires i <= |snapshots|
    ensures |FlowCandidates(snapshots, args, i)| == |snapshots| - i
    ensures forall j :: 0 <= j < |snapshots| - i ==> FlowCandidates(snapshots, args, i)[j].at == snapshots[i + j].ts
    decreases |snapshots| - i
  {
    hide Passes, RecoveryBase;
    if i < |snapshots| {
      FlowCandidateTimes(snapshots, args, i + 1);
      var all, rest := FlowCandidates(snapshots, args, i), FlowCandidates(snapshots, args, i + 1);
      forall j | 0 < j < |snapshots| - i ensures all[j].at == snapshots[i + j].ts {
        assert all[j] == rest[j - 1];
      }
    }
  }

  lemma FlowCandidatesSorted(snapshots: seq<Snapshot>, args: FlowArgs)
    requires SortedBy(snapshots, SnapshotTs)
    ensures SortedBy(FlowCandidates(snapshots, args, 0), CandidateTs)
  {
    FlowCandidateTimes(snapshots, args, 0);
    var all := FlowCandidates(snapshots, args, 0);
    forall i, j | 0 <= i < j < |all| ensures CandidateTs(all[i]) <= CandidateTs(all[j]) {
      assert SnapshotTs(snapshots[i]) <= SnapshotTs(snapshots[j]);
    }
  }

  lemma {:induction false} FlowExits(taken: seq<Taken>, args: FlowArgs, t: int)
    ensures ExitedTrades(FlowOf(taken, args), t) == FlowOf(ExitedBy(taken, t), args)
  {
    hide TradeOn;
    if taken != [] {
      FlowExits(taken[1..], args, t);
      TradeTimes(taken[0].entry, taken[0].exit, taken[0].at, args.notionalKrw, args.feeRate);
      assert FlowOf(taken, args)[1..] == FlowOf(taken[1..], args);
      if taken[0].exit.ts <= t {
        assert ExitedBy(taken, t)[1..] == ExitedBy(taken[1..], t);
      } else {
        assert ExitedBy(taken, t) == ExitedBy(taken[1..], t);
        assert ExitedTrades(FlowOf(taken, args), t) == ExitedTrades(FlowOf(taken[1..], args), t);
      }
    }
  }

  /** The same for the order-flow simulator, recovery base included. */
  lemma FlowIsCausal(snapshots: seq<Snapshot>, books: seq<Book>, args: FlowArgs, t: int)
    requires SortedBy(snapshots, SnapshotTs) && SortedBy(books, BookTs)
    requires args.horizonMs >= 0 && args.recoveryLookbackMs >= 0
    ensures ExitedTrades(FlowTrades(snapshots, books, args, 0, None), t)
         == FlowTrades(SnapshotsBy(snapshots, t), BooksBy(books, t), args, 0, None)
  {
    hide TakenFrom, BooksBy, CandidatesBy, FlowOf, FlowTrades, ExitedTrades, FlowCandidates, FirstAtOrAfter;
    var early := SnapshotsBy(snapshots, t);
    FlowIsTaken(snapshots, books, args, 0, None);
    FlowIsTaken(early, BooksBy(books, t), args, 0, None);
    SnapshotsAreCandidates(snapshots, args, t, |early|, 0);
    FlowCandidatesSorted(snapshots, args);
    ExitsAreCausal(books, FlowCandidates(snapshots, args, 0), args.horizonMs, None, t);
    FlowExits(TakenFrom(books, FlowCandidates(snapshots, args, 0), args.horizonMs, None), args, t);
  }
}
