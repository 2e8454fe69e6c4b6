/** MT5 history paging (broker/mt5_gateway.py, get_candles without an end time). */
module Mt5History {
  import opened Prelude

  const MAX_RATES_PER_REQUEST: nat := 50_000

  /** copy_rates_from_pos(start, count): nothing when the terminal rejects the request. */
  type Terminal<!T> = (nat, nat) -> Option<seq<T>>

  /** The terminal never sends more bars than asked for. */
  ghost predicate Polite<T(!new)>(terminal: Terminal<T>) {
    forall start: nat, count: nat :: var page := terminal(start, count); page.Some? ==> |page.value| <= count
  }

  /** The k newest closed bars, in ascending order. The last bar of a history is still forming. */
  function Newest<T>(history: seq<T>, k: nat): seq<T>
    requires k < |history|
  {
    history[|history| - 1 - k..|history| - 1]
  }

  /** The page is the stretch of history whose newest bar is at this position, counted back from the forming bar at 0. */
  predicate IsPage<T(==)>(history: seq<T>, start: nat, page: seq<T>) {
    start + |page| <= |history| && page == history[|history| - start - |page|..|history| - start]
  }

  /** The series does not move during the call: every page is the stretch of one history ending at its position. */
  ghost predicate Stable<T(!new)>(terminal: Terminal<T>, history: seq<T>) {
    forall start: nat, count: nat ::
      var page := terminal(start, count);
      page.Some? && page.value != [] ==> IsPage(history, start, page.value)
  }

  /** The terminal rejects nothing and sends all it has, up to what was asked for. */
  ghost predicate Complete<T(!new)>(terminal: Terminal<T>, history: seq<T>) {
    && history != []
    && Stable(terminal, history)
    && forall start: nat, count: nat ::
      var page := terminal(start, count);
      page.Some? && (|page.value| < count ==> start + |page.value| >= |history|)
  }

  ghost predicate Rejects<T(!new)>(terminal: Terminal<T>) {
    exists start: nat, count: nat :: terminal(start, count).None?
  }

  function Smaller(a: nat, b: nat): nat {
    if a <= b then a else b
  }

  /** All bars, the page read last first. */
  function Joined<T>(pages: seq<seq<T>>): seq<T> {
    if pages == [] then [] else Last(pages) + Joined(Init(pages))
  }

  /** A page that continues the bars already read extends them by exactly its length. */
  lemma PageExtends<T>(history: seq<T>, k: nat, page: seq<T>)
    requires k < |history| && IsPage(history, k + 1, page)
    ensures k + |page| < |history| && Newest(history, k + |page|) == page + Newest(history, k)
  {
  }

  /** What is known while paging: the bars read are the newest ones. */
  ghost predicate Read<T>(history: seq<T>, start: nat, pages: seq<seq<T>>) {
    history != [] && 1 <= start <= |history| && Joined(pages) == Newest(history, start - 1)
  }

  lemma ReadNext<T(!new)>(terminal: Terminal<T>, history: seq<T>, start: nat, count: nat, pages: seq<seq<T>>)
    requires Read(history, start, pages) && Stable(terminal, history)
    requires terminal(start, count).Some? && terminal(start, count).value != []
    ensures var page := terminal(start, count).value;
            Read(history, start + |page|, pages + [page])
  {
    var page := terminal(start, count).value;
    assert Init(pages + [page]) == pages;
    hide Stable;
    PageExtends(history, start - 1, page);
  }

  /**
    Terminates for any terminal that never sends more than asked. Over a stable history the bars are
    contiguous, ascending, the newest closed ones and never the forming one; when the terminal sends
    all it has they are exactly min(count, closed bars) of them.
  */
  method GetCandles<T(!new)>(terminal: Terminal<T>, count: int, ghost history: seq<T>)
    returns (bars: Result<seq<T>>)
    requires Polite(terminal)
    ensures bars.Err? ==> count <= 0 || Rejects(terminal) || terminal(1, Smaller(count, MAX_RATES_PER_REQUEST)) == Some([])
    ensures count <= 0 ==> bars.Err?
    ensures bars.Ok? ==> 0 < |bars.value| <= count
    ensures bars.Ok? && history != [] && Stable(terminal, history) ==>
              |bars.value| < |history| && bars.value == Newest(history, |bars.value|)
    ensures count > 0 && Complete(terminal, history) ==> (bars.Ok? <==> |history| > 1)
    ensures bars.Ok? && Complete(terminal, history) ==> |bars.value| == Smaller(count, |history| - 1)
  {
    if count <= 0 {
      return Err("MT5 candle count must be a positive integer");
    }
    var pages: seq<seq<T>> := [];
    var start: nat := 1;
    var remaining: nat := count;
    var short := false;
    while remaining > 0 && !short
      invariant start + remaining == count + 1
      invariant |Joined(pages)| == start - 1
      invariant pages == [] <==> start == 1
      invariant short ==> start > 1
      invariant history != [] && Stable(terminal, history) ==> Read(history, start, pages)
      invariant short && Complete(terminal, history) ==> start >= |history| && start > 1
      decreases remaining, !short
    {
      var size := Smaller(remaining, MAX_RATES_PER_REQUEST);
      var raw := terminal(start, size);
      if raw.None? {
        return Err("MT5 rejected candle history request");
      }
      var page := raw.value;
      if |page| == 0 {
        if pages == [] {
          return Err("No candle data returned from MT5");
        }
        short := true;
      } else {
        if history != [] && Stable(terminal, history) {
          ReadNext(terminal, history, start, size, pages);
        }
        assert Init(pages + [page]) == pages;
        pages := pages + [page];
        remaining := remaining - |page|;
        start := start + |page|;
        short := |page| < size;
      }
    }
    bars := Ok(Joined(pages));
  }
}
