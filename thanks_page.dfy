/**
 * The thank-you page sent on success. Only its variable part is modelled:
 * `guilds.map((id, i) => ...).join("")` renders one progress bar per
 * configured guild, the bar at position i starting its fill animation after
 * i * 17 seconds. The guild id itself is not shown on the page.
 */
module ThanksPage {

  /** Seconds between the start of one bar's animation and the next. */
  const BarStaggerSeconds: nat := 17

  /** One progress bar: the CSS `animation-delay` of its fill, in seconds. */
  datatype Bar = Bar(delaySeconds: nat)

  /** The bars for `guilds`, the first of them being bar number `index`. */
  function BarsFrom(guilds: seq<string>, index: nat): seq<Bar>
  {
    if guilds == [] then []
    else [Bar(index * BarStaggerSeconds)] + BarsFrom(guilds[1..], index + 1)
  }

  /** The bars of the whole page. */
  function Bars(guilds: seq<string>): seq<Bar>
  {
    BarsFrom(guilds, 0)
  }

  lemma {:induction false} BarsFromShape(guilds: seq<string>, index: nat)
    ensures |BarsFrom(guilds, index)| == |guilds|
    ensures forall i :: 0 <= i < |guilds| ==>
      BarsFrom(guilds, index)[i].delaySeconds == (index + i) * BarStaggerSeconds
  {
    if guilds != [] {
      BarsFromShape(guilds[1..], index + 1);
      var rest := BarsFrom(guilds[1..], index + 1);
      forall i | 1 <= i < |guilds|
        ensures BarsFrom(guilds, index)[i].delaySeconds == (index + i) * BarStaggerSeconds
      {
        assert BarsFrom(guilds, index)[i] == rest[i - 1];
      }
    }
  }

  /**
   * Exactly one bar per guild entry, in order, the i-th (from 0) delayed by
   * i * 17 seconds; so delays strictly increase, 17 seconds apart.
   */
  lemma BarsOnePerGuild(guilds: seq<string>)
    ensures |Bars(guilds)| == |guilds|
    ensures forall i :: 0 <= i < |guilds| ==> Bars(guilds)[i].delaySeconds == i * 17
    ensures forall i :: 0 < i < |guilds| ==>
      Bars(guilds)[i].delaySeconds == Bars(guilds)[i - 1].delaySeconds + 17
  {
    BarsFromShape(guilds, 0);
  }

  /** The page depends on the number of guilds only, not on their ids. */
  lemma {:induction false} BarsIgnoreIds(g1: seq<string>, g2: seq<string>)
    requires |g1| == |g2|
    ensures Bars(g1) == Bars(g2)
  {
    BarsFromShape(g1, 0);
    BarsFromShape(g2, 0);
  }
}
