/**
 * The quote ticker of app/components/Ticker.tsx: a poller whose state is the
 * list of quotes, a loading flag and the `mounted` guard of the current
 * effect, the marquee list derived from the quotes, and the percentage and
 * direction shown for each quote.
 */
module Ticker {
  import opened Wrappers

  /**
   * One quote. A field is `Some` exactly when the payload holds a number
   * there (the `typeof … === "number"` tests); `None` covers a missing
   * field and a field of any other type.
   */
  datatype Quote = Quote(symbol: string, price: Option<real>, change: Option<real>, changesPercentage: Option<real>)

  /**
   * `quotes.concat(quotes)`: the list shown by the scrolling marquee. It is
   * twice as long as the quotes, empty exactly when they are, and its second
   * half repeats its first.
   */
  function Marquee(quotes: seq<Quote>): (m: seq<Quote>)
    ensures |m| == 2 * |quotes| && |m| % 2 == 0
    ensures m == [] <==> quotes == []
    ensures forall i :: 0 <= i < |quotes| ==> m[i] == quotes[i] && m[i + |quotes|] == quotes[i]
  {
    quotes + quotes
  }

  /** A JavaScript number as far as the percentage needs one: a real value, an infinity or NaN. */
  datatype Num = Finite(value: real) | PlusInfinity | MinusInfinity | NaN

  /**
   * `(change / price) * 100`: the real value when `price` is not zero;
   * dividing by zero gives an infinity of the sign of `change`, or NaN when
   * `change` is zero as well.
   */
  function RatioPercent(change: real, price: real): Num
  {
    if price != 0.0 then Finite(change / price * 100.0)
    else if change > 0.0 then PlusInfinity
    else if change < 0.0 then MinusInfinity
    else NaN
  }

  /**
   * `pct`: the reported `changesPercentage` when present, else the ratio of
   * `change` to `price` when both are present, else zero.
   */
  function Percent(q: Quote): Num
  {
    if q.changesPercentage.Some? then Finite(q.changesPercentage.value)
    else if q.change.Some? && q.price.Some? then RatioPercent(q.change.value, q.price.value)
    else Finite(0.0)
  }

  /** `up = pct >= 0`; NaN compares false. */
  predicate Up(pct: Num)
  {
    match pct
    case Finite(v) => v >= 0.0
    case PlusInfinity => true
    case MinusInfinity => false
    case NaN => false
  }

  /** A ratio is not negative exactly when its two sides do not have opposite signs. */
  lemma RatioSign(change: real, price: real)
    requires price != 0.0
    ensures change / price * 100.0 >= 0.0 <==> change * price >= 0.0
  {
    var d := change / price;
    assert change == d * price;
    assert change * price == d * (price * price);
    assert price * price > 0.0;
    if d >= 0.0 {
      assert d * (price * price) >= 0.0;
    } else {
      assert d * (price * price) < 0.0;
    }
  }

  /**
   * The direction shown for a quote: with a reported percentage it is "up"
   * exactly when that is not negative; with only change and price it is
   * "up" exactly when they do not have opposite signs (a zero price counts
   * as "up" only for a positive change, since the model has no negative
   * zero); with neither it is zero, and so "up".
   */
  lemma Direction(q: Quote)
    ensures q.changesPercentage.Some? ==> (Up(Percent(q)) <==> q.changesPercentage.value >= 0.0)
    ensures q.changesPercentage.None? && q.change.Some? && q.price.Some? ==>
              (Up(Percent(q)) <==>
                 (q.price.value != 0.0 && q.change.value * q.price.value >= 0.0) ||
                 (q.price.value == 0.0 && q.change.value > 0.0))
    ensures q.changesPercentage.None? && (q.change.None? || q.price.None?) ==>
              Percent(q) == Finite(0.0) && Up(Percent(q))
  {
    if q.changesPercentage.None? && q.change.Some? && q.price.Some? && q.price.value != 0.0 {
      RatioSign(q.change.value, q.price.value);
    }
  }

  /** The three worked cases: a reported 2%, a change of -5 on a price of 100, and no data at all. */
  lemma PercentExamples()
    ensures Percent(Quote("AAPL", Some(150.0), Some(3.0), Some(2.0))) == Finite(2.0)
    ensures Up(Percent(Quote("AAPL", Some(150.0), Some(3.0), Some(2.0))))
    ensures Percent(Quote("AAPL", Some(100.0), Some(-5.0), None)) == Finite(-5.0)
    ensures !Up(Percent(Quote("AAPL", Some(100.0), Some(-5.0), None)))
    ensures Percent(Quote("AAPL", None, None, None)) == Finite(0.0)
    ensures Up(Percent(Quote("AAPL", None, None, None)))
  {
  }

  /** What `res.json()` gave: an array (taken as quotes) or anything else. */
  datatype Payload = QuoteArray(items: seq<Quote>) | NotArray

  /**
   * The poller's state: the two React state variables, the number of the
   * current effect (it grows when the symbol list changes), that effect's
   * `mounted` flag, and whether its interval timer is running.
   */
  datatype State = State(quotes: seq<Quote>, loading: bool, effect: nat, mounted: bool, polling: bool)

  /**
   * What can happen to the poller: a request of effect `from` completed with
   * a payload, or threw (the fetch or `res.json()` rejected); the effect was
   * cleaned up on unmount; or the symbol list changed, which cleans up the
   * current effect and starts the next one. A timer tick is the completion
   * of one more request.
   */
  datatype Event = Responded(from: nat, data: Payload) | Threw(from: nat) | Cleanup | Restart

  /** `useState([])`, `useState(true)`, and the first effect running with `mounted = true`. */
  const Initial: State := State([], true, 0, true, true)

  /** The `mounted` flag that a request of effect `from` reads. */
  predicate Live(s: State, from: nat)
  {
    from == s.effect && s.mounted
  }

  /** The `mounted` flag of effect `k` is false and can never be true again. */
  predicate Dead(s: State, k: nat)
  {
    k < s.effect || (k == s.effect && !s.mounted)
  }

  /** The interval timer runs exactly while the current effect is mounted. */
  predicate Consistent(s: State)
  {
    s.polling == s.mounted
  }

  /** One event, as `fetchQuotes` and the effect's cleanup handle it. */
  function Step(s: State, e: Event): State
  {
    match e
    case Responded(from, data) =>
      if !Live(s, from) then s
      else s.(quotes := if data.QuoteArray? then data.items else s.quotes, loading := false)
    case Threw(from) =>
      if !Live(s, from) then s
      else s.(quotes := [], loading := false)
    case Cleanup => s.(mounted := false, polling := false)
    case Restart => s.(effect := s.effect + 1, mounted := true, polling := true)
  }

  /** A sequence of events, in the order they happen. */
  function Run(s: State, events: seq<Event>): State
    decreases |events|
  {
    if |events| == 0 then s else Run(Step(s, events[0]), events[1..])
  }

  /**
   * A completion for the live effect: an array replaces the quotes as it
   * is and a non-array payload leaves them alone; a thrown request empties
   * them; in all three cases loading ends. Nothing else changes.
   */
  lemma LiveCompletion(s: State, items: seq<Quote>)
    requires Live(s, s.effect)
    ensures Step(s, Responded(s.effect, QuoteArray(items))) == s.(quotes := items, loading := false)
    ensures Step(s, Responded(s.effect, NotArray)) == s.(loading := false)
    ensures Step(s, Threw(s.effect)) == s.(quotes := [], loading := false)
  {
  }

  /**
   * The quotes and the loading flag change only through a completion of the
   * live effect; in particular loading only ever goes from true to false.
   */
  lemma OnlyLiveCompletionsChangeQuotes(s: State, e: Event)
    ensures Step(s, e).quotes != s.quotes || Step(s, e).loading != s.loading ==>
              (e.Responded? || e.Threw?) && Live(s, e.from)
    ensures !s.loading ==> !Step(s, e).loading
  {
  }

  /** Once loading has ended it never starts again, whatever happens afterwards. */
  lemma {:induction false} LoadingNeverReturns(s: State, events: seq<Event>)
    requires !s.loading
    ensures !Run(s, events).loading
    decreases |events|
  {
    if |events| > 0 {
      LoadingNeverReturns(Step(s, events[0]), events[1..]);
    }
  }

  /** The poller starts loading with no quotes, and the timer runs exactly while the effect is mounted. */
  lemma AlwaysConsistent(events: seq<Event>)
    ensures Initial.quotes == [] && Initial.loading
    ensures Consistent(Run(Initial, events))
  {
    ConsistentRun(Initial, events);
  }

  /** Every event keeps the timer in step with the `mounted` flag. */
  lemma {:induction false} ConsistentRun(s: State, events: seq<Event>)
    requires Consistent(s)
    ensures Consistent(Run(s, events))
    decreases |events|
  {
    if |events| > 0 {
      ConsistentRun(Step(s, events[0]), events[1..]);
    }
  }

  /** An effect that has been cleaned up stays cleaned up. */
  lemma {:induction false} DeadStaysDead(s: State, events: seq<Event>, k: nat)
    requires Dead(s, k)
    ensures Dead(Run(s, events), k)
    decreases |events|
  {
    if |events| > 0 {
      DeadStaysDead(Step(s, events[0]), events[1..], k);
    }
  }

  /**
   * A request of an effect that has been cleaned up is a no-op whenever it
   * completes: after any later events, its response or its failure leaves
   * the whole state as it is.
   */
  lemma LateCompletionIsIgnored(s: State, events: seq<Event>, k: nat, data: Payload)
    requires Dead(s, k)
    ensures Step(Run(s, events), Responded(k, data)) == Run(s, events)
    ensures Step(Run(s, events), Threw(k)) == Run(s, events)
  {
    DeadStaysDead(s, events, k);
  }

  /**
   * After unmounting, no completion of any request changes the quotes or
   * the loading flag, and the timer stays stopped.
   */
  lemma {:induction false} UnmountFreezesTheTicker(s: State, events: seq<Event>)
    requires !s.mounted && Consistent(s)
    requires forall i :: 0 <= i < |events| ==> !events[i].Restart?
    ensures Run(s, events).quotes == s.quotes && Run(s, events).loading == s.loading
    ensures !Run(s, events).mounted && !Run(s, events).polling
    decreases |events|
  {
    if |events| > 0 {
      assert Step(s, events[0]).quotes == s.quotes && Step(s, events[0]).loading == s.loading;
      UnmountFreezesTheTicker(Step(s, events[0]), events[1..]);
    }
  }

  /**
   * The component's state, updated in place by the completions of its
   * requests and by the cleanup of its effect.
   */
  class Poller {
    var quotes: seq<Quote>
    var loading: bool
    var effect: nat
    var mounted: bool
    var polling: bool

    /** The current state as a value. */
    function Snapshot(): State
      reads this
    {
      State(quotes, loading, effect, mounted, polling)
    }

    /** The interval timer runs exactly while the current effect is mounted. */
    predicate Valid()
      reads this
    {
      Consistent(Snapshot())
    }

    /** `marquee`, recomputed from the current quotes. */
    function Loop(): seq<Quote>
      reads this
    {
      Marquee(quotes)
    }

    /** Mounting: no quotes, loading, the first effect mounted and its timer started. */
    constructor ()
      ensures Snapshot() == Initial && Valid()
    {
      quotes, loading := [], true;
      effect, mounted, polling := 0, true, true;
    }

    /**
     * The `try` block of `fetchQuotes` completing for effect `from`, then its
     * `finally`: while that effect is mounted an array payload replaces the
     * quotes and loading ends even when the payload is not an array;
     * otherwise nothing changes.
     */
    method Respond(from: nat, data: Payload)
      requires Valid()
      modifies this
      ensures Valid()
      ensures Snapshot() == Step(old(Snapshot()), Responded(from, data))
      ensures quotes == if old(Live(Snapshot(), from)) && data.QuoteArray? then data.items else old(quotes)
      ensures loading == (old(loading) && !old(Live(Snapshot(), from)))
      ensures effect == old(effect) && mounted == old(mounted) && polling == old(polling)
    {
      if mounted && from == effect {
        if data.QuoteArray? {
          quotes := data.items;
        }
        loading := false;
      }
    }

    /**
     * The `catch` block of `fetchQuotes` for effect `from`, then its
     * `finally`: while that effect is mounted the quotes are emptied and
     * loading ends; otherwise nothing changes.
     */
    method Fail(from: nat)
      requires Valid()
      modifies this
      ensures Valid()
      ensures Snapshot() == Step(old(Snapshot()), Threw(from))
      ensures quotes == if old(Live(Snapshot(), from)) then [] else old(quotes)
      ensures loading == (old(loading) && !old(Live(Snapshot(), from)))
      ensures effect == old(effect) && mounted == old(mounted) && polling == old(polling)
    {
      if mounted && from == effect {
        quotes := [];
        loading := false;
      }
    }

    /** The effect's cleanup on unmount: `mounted = false` and `clearInterval`. */
    method Cleanup()
      requires Valid()
      modifies this
      ensures Valid()
      ensures Snapshot() == Step(old(Snapshot()), Event.Cleanup)
      ensures !mounted && !polling
      ensures quotes == old(quotes) && loading == old(loading) && effect == old(effect)
    {
      mounted := false;
      polling := false;
    }

    /**
     * The symbol list changed: the current effect is cleaned up and the next
     * one starts, mounted, with its own timer. The quotes and the loading
     * flag are React state and carry over.
     */
    method Restart()
      requires Valid()
      modifies this
      ensures Valid()
      ensures Snapshot() == Step(old(Snapshot()), Event.Restart)
      ensures effect == old(effect) + 1 && mounted && polling
      ensures quotes == old(quotes) && loading == old(loading)
    {
      effect := effect + 1;
      mounted := true;
      polling := true;
    }
  }
}
