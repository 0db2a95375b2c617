/**
 * The full-screen delegation of `DefaultEmbeddedMediaPlayer`.  The
 * application's `FullScreenStrategy` is represented by the mode it reports
 * from `IsFullScreenMode`, or None when the player was given no strategy;
 * the player's effect on it is the list of strategy methods it calls.
 */
module Embedded {

  import opened Wrappers

  datatype StrategyCall = EnterFullScreenMode | ExitFullScreenMode

  /** `SetFullScreen`: enter for true, exit for false, nothing without a strategy. */
  function SetFullScreen(strategy: Option<bool>, fullScreen: bool): (r: seq<StrategyCall>)
    ensures strategy.None? <==> r == []
    ensures strategy.Some? ==> r == [if fullScreen then EnterFullScreenMode else ExitFullScreenMode]
  {
    if strategy.None? then []
    else if fullScreen then [EnterFullScreenMode]
    else [ExitFullScreenMode]
  }

  /** `ToggleFullScreen`: sets the negation of the strategy's current mode. */
  function ToggleFullScreen(strategy: Option<bool>): (r: seq<StrategyCall>)
  {
    if strategy.None? then [] else SetFullScreen(strategy, !strategy.value)
  }

  /** `IsFullScreen`: the strategy's mode, false without a strategy. */
  function IsFullScreen(strategy: Option<bool>): bool
  {
    strategy.Some? && strategy.value
  }

  /** The mode a strategy that does what its methods say reports after `calls`. */
  function ModeAfter(strategy: Option<bool>, calls: seq<StrategyCall>): (r: Option<bool>)
    ensures r.Some? <==> strategy.Some?
    decreases |calls|
  {
    if calls == [] || strategy.None? then strategy
    else ModeAfter(Some(calls[0] == EnterFullScreenMode), calls[1..])
  }

  /** Setting full screen leaves the player reporting the requested mode whenever a strategy is present. */
  lemma SetFullScreenReports(strategy: Option<bool>, fullScreen: bool)
    ensures IsFullScreen(ModeAfter(strategy, SetFullScreen(strategy, fullScreen))) <==> strategy.Some? && fullScreen
  {
  }

  /** A toggle flips the reported mode; without a strategy it stays false. */
  lemma ToggleFlips(strategy: Option<bool>)
    ensures IsFullScreen(ModeAfter(strategy, ToggleFullScreen(strategy))) <==> strategy.Some? && !IsFullScreen(strategy)
  {
  }

  /** Two toggles restore the mode the strategy reported. */
  lemma ToggleTwiceRestores(strategy: Option<bool>)
    ensures ModeAfter(ModeAfter(strategy, ToggleFullScreen(strategy)), ToggleFullScreen(ModeAfter(strategy, ToggleFullScreen(strategy)))) == strategy
  {
  }

  /** The flag `SetEnableMouseInputHandling` and `SetEnableKeyInputHandling` pass to libvlc. */
  function InputFlag(enable: bool): (r: int)
    ensures r == 1 || r == 0
    ensures r == 1 <==> enable
  {
    if enable then 1 else 0
  }
}
