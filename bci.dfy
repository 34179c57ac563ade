/** The Blockchain.info ticker source (`BCI`): the last BTC/USD trade price,
    refreshed behind a cooldown of at least sixty seconds. */
module Bci {
  import opened Common
  import Cooldown

  /** The field of the ticker response that the source reads: `USD.last`. */
  datatype Ticker = Ticker(usdLast: real)

  /** The ticker endpoint. */
  const TickerUrl: string := "https://blockchain.info/ticker"

  class Bci {
    const baseUrl: string
    var btcUsd: real
    var lastUpdate: real
    /** Minimum number of seconds between two refreshes. */
    const updateInterval: real

    /** Every value `lastUpdate` has held, from the constructor's 0 on. */
    ghost var stamps: seq<real>

    ghost predicate Valid()
      reads this
    {
      updateInterval >= 60.0 && Cooldown.Stamped(stamps, lastUpdate, updateInterval)
    }

    /** `blockchaininfo_update_minutes` converted to seconds, raised to at
        least 60; the price starts at 0. */
    constructor (settings: Settings)
      ensures Valid() && stamps == [0.0]
      ensures baseUrl == TickerUrl
      ensures updateInterval == Cooldown.Clamp(settings.blockchaininfoUpdateMinutes * 60.0, 60.0)
      ensures btcUsd == 0.0 && lastUpdate == 0.0
    {
      baseUrl := TickerUrl;
      btcUsd := 0.0;
      lastUpdate := 0.0;
      var interval := settings.blockchaininfoUpdateMinutes * 60.0;
      if interval < 60.0 {
        interval := 60.0;
      }
      updateInterval := interval;
      stamps := [0.0];
    }

    /** One refresh at time `now`. Inside the cooldown nothing changes.
        Otherwise `now` is stamped, and a fetched ticker replaces the price with
        its last trade price; a failed fetch changes nothing else. */
    method Update(now: real, reply: Fetch<Ticker>)
      requires Valid()
      modifies this
      ensures Valid()
      ensures !Cooldown.Ready(now, old(lastUpdate), updateInterval) ==>
        lastUpdate == old(lastUpdate) && stamps == old(stamps) && btcUsd == old(btcUsd)
      ensures Cooldown.Ready(now, old(lastUpdate), updateInterval) ==>
        lastUpdate == now && stamps == old(stamps) + [now]
      ensures Cooldown.Ready(now, old(lastUpdate), updateInterval) ==>
        btcUsd == if reply.Fetched? then reply.body.usdLast else old(btcUsd)
    {
      if now - lastUpdate < updateInterval {
        return;
      }
      Cooldown.StampKeepsSpacing(stamps, lastUpdate, updateInterval, now);
      lastUpdate := now;
      stamps := stamps + [now];

      if reply.FetchFailed? {
        return;
      }
      btcUsd := reply.body.usdLast;
    }
  }
}
