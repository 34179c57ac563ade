/** The CEX.io ticker source (`CEX`): the BTC/USD midpoint price, the price it
    is compared with, and the reported percentage change, refreshed behind a
    cooldown of at least one second. */
module Cex {
  import opened Common
  import Cooldown

  /** The fields of the ticker response that the source reads. */
  datatype Ticker = Ticker(bid: real, ask: real, priceChangePercentage: string)

  /** The midpoint of the bid and the ask. */
  function Midpoint(bid: real, ask: real): (m: real)
    ensures m - bid == ask - m
    ensures bid <= ask ==> bid <= m <= ask
  {
    (bid + ask) / 2.0
  }

  /** The two prices the display compares: the current one and the previous. */
  datatype Quote = Quote(price: real, previous: real)

  /** The previous-price rule: a new price moves the current one into
      `previous`; a price equal to the current one leaves `previous` as it was,
      so a repeated tick does not collapse the displayed change to zero. */
  function NextQuote(q: Quote, price: real): (r: Quote)
    ensures r.price == price
  {
    if price == q.price then q else Quote(price, q.price)
  }

  /** A repeated price changes neither price; a different one is shown against
      the price it replaces. */
  lemma NextQuoteCases(q: Quote, price: real)
    ensures price == q.price ==> NextQuote(q, price) == q
    ensures price != q.price ==> NextQuote(q, price).previous == q.price
    ensures price != q.price ==> NextQuote(q, price).price != NextQuote(q, price).previous
  {
  }

  /** The quote after a run of successful updates with the given midpoints. */
  function Replay(q: Quote, prices: seq<real>): Quote
    decreases |prices|
  {
    if prices == [] then q else Replay(NextQuote(q, prices[0]), prices[1..])
  }

  /** After any run of updates the current price is the last midpoint. */
  lemma {:induction false} ReplayShowsLast(q: Quote, prices: seq<real>)
    requires prices != []
    ensures Replay(q, prices).price == prices[|prices| - 1]
    decreases |prices|
  {
    if |prices| > 1 {
      ReplayShowsLast(NextQuote(q, prices[0]), prices[1..]);
    }
  }

  /** Once the current and previous prices differ they never become equal
      again, however many updates follow. */
  lemma {:induction false} ReplayKeepsDelta(q: Quote, prices: seq<real>)
    requires q.price != q.previous
    ensures Replay(q, prices).price != Replay(q, prices).previous
    decreases |prices|
  {
    if prices != [] {
      NextQuoteCases(q, prices[0]);
      ReplayKeepsDelta(NextQuote(q, prices[0]), prices[1..]);
    }
  }

  /** The previous price is always one that was shown before: the starting
      price or previous, or one of the midpoints of the run. */
  lemma {:induction false} ReplayPreviousWasShown(q: Quote, prices: seq<real>)
    ensures Replay(q, prices).previous in [q.price, q.previous] + prices
    decreases |prices|
  {
    if prices != [] {
      var next := NextQuote(q, prices[0]);
      ReplayPreviousWasShown(next, prices[1..]);
      var shown := [q.price, q.previous] + prices;
      assert next.price in shown && next.previous in shown;
      assert forall x :: x in prices[1..] ==> x in shown;
    }
  }

  class Cex {
    var btcUsd: real
    var lastBtcUsd: real
    var pctChg: string
    var lastUpdate: real
    /** Minimum number of seconds between two refreshes. */
    const updateInterval: real

    /** Every value `lastUpdate` has held, from the constructor's 0 on. */
    ghost var stamps: seq<real>

    ghost predicate Valid()
      reads this
    {
      updateInterval >= 1.0 && Cooldown.Stamped(stamps, lastUpdate, updateInterval)
    }

    /** `cex_update_minutes` converted to seconds, raised to at least 1; both
        prices 0 and the change "-0%". */
    constructor (settings: Settings)
      ensures Valid() && stamps == [0.0]
      ensures updateInterval == Cooldown.Clamp(settings.cexUpdateMinutes * 60.0, 1.0)
      ensures btcUsd == 0.0 && lastBtcUsd == 0.0 && pctChg == "-0%" && lastUpdate == 0.0
    {
      btcUsd := 0.0;
      lastBtcUsd := 0.0;
      pctChg := "-0%";
      lastUpdate := 0.0;
      var interval := settings.cexUpdateMinutes * 60.0;
      if interval < 1.0 {
        interval := 1.0;
      }
      updateInterval := interval;
      stamps := [0.0];
    }

    /** One refresh at time `now`. Inside the cooldown nothing changes.
        Otherwise `now` is stamped; a failed fetch then changes nothing else,
        and a ticker sets the price to its midpoint under the previous-price
        rule and the change to its percentage followed by "%". */
    method Update(now: real, reply: Fetch<Ticker>)
      requires Valid()
      modifies this
      ensures Valid()
      ensures !Cooldown.Ready(now, old(lastUpdate), updateInterval) ==>
        lastUpdate == old(lastUpdate) && stamps == old(stamps) &&
        btcUsd == old(btcUsd) && lastBtcUsd == old(lastBtcUsd) && pctChg == old(pctChg)
      ensures Cooldown.Ready(now, old(lastUpdate), updateInterval) ==>
        lastUpdate == now && stamps == old(stamps) + [now]
      ensures Cooldown.Ready(now, old(lastUpdate), updateInterval) && reply.FetchFailed? ==>
        btcUsd == old(btcUsd) && lastBtcUsd == old(lastBtcUsd) && pctChg == old(pctChg)
      ensures Cooldown.Ready(now, old(lastUpdate), updateInterval) && reply.Fetched? ==>
        Quote(btcUsd, lastBtcUsd) ==
          NextQuote(Quote(old(btcUsd), old(lastBtcUsd)), Midpoint(reply.body.bid, reply.body.ask)) &&
        pctChg == reply.body.priceChangePercentage + "%"
      ensures old(btcUsd) != old(lastBtcUsd) ==> btcUsd != lastBtcUsd
    {
      if now - lastUpdate < updateInterval {
        return;
      }
      Cooldown.StampKeepsSpacing(stamps, lastUpdate, updateInterval, now);
      lastUpdate := now;
      stamps := stamps + [now];

      if reply.FetchFailed? {
        return;
      }
      var x := reply.body;
      var lastBackup := lastBtcUsd;
      lastBtcUsd := btcUsd;
      btcUsd := (x.bid + x.ask) / 2.0;
      if btcUsd == lastBtcUsd {
        lastBtcUsd := lastBackup;
      }
      pctChg := x.priceChangePercentage + "%";
    }
  }
}
