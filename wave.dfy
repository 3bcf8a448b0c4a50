/**
 * A wave: a roster of enemies released into the game one at a time, each after
 * its own add delay, and a reward paid when the last of them has left.
 *
 * The spawning and removal bookkeeping is specified by pure functions over a
 * `Spawn` snapshot (enemies still to add, the one waiting on the add timer,
 * the ones in the game). The class `Wave` performs it in place and records, in
 * a ghost log of `Effect`s, the calls it makes to its listeners, to the game
 * engine, to the game manager and to its enemies.
 */
module Waves {
  import opened Wrappers
  import opened Enemies

  /** Delays shorter than this put the enemy into the game on the tick it is taken off the roster. */
  const ImmediateDelay: real := 0.1

  /** An outside call made by the wave, in the order it is made. */
  datatype Effect =
    | WaveStarted                 // Listener.onWaveStarted
    | AllEnemiesAdded             // Listener.onWaveAllEnemiesAdded
    | EnemyRemoved(e: Enemy)      // Listener.onWaveEnemyRemoved
    | WaveDone                    // Listener.onWaveDone
    | Payment(credits: int)       // GameManager.giveCredits
    | EngineAdd(e: Enemy)         // GameEngine.add
    | RemoveRequest(e: Enemy)     // Enemy.remove
    | Watch(e: Enemy)             // Enemy.addListener(enemy listener)
    | Unwatch(e: Enemy)           // Enemy.removeListener(enemy listener)
    | TickSubscribe               // GameEngine.addListener(game listener)
    | TickUnsubscribe             // GameEngine.removeListener(game listener)

  // ------------------------------------------------------------------
  // Spawning and removal, on values
  // ------------------------------------------------------------------

  /** The wave's enemy lists: still to add, waiting on the add timer, in the game. */
  datatype Spawn = Spawn(toAdd: seq<Enemy>, pending: Option<Enemy>, inGame: seq<Enemy>)

  function PendingSet(o: Option<Enemy>): multiset<Enemy> {
    match o
    case None => multiset{}
    case Some(e) => multiset{e}
  }

  /** Every enemy the wave still tracks, wherever it is. */
  function Members(s: Spawn): multiset<Enemy> {
    multiset(s.toAdd) + PendingSet(s.pending) + multiset(s.inGame)
  }

  /** The removal callback's test: nothing left to add, nothing waiting, nothing in the game. */
  predicate Finished(s: Spawn) {
    s.toAdd == [] && s.pending.None? && s.inGame == []
  }

  /** What one game tick does to the lists. */
  datatype TickOutcome =
    | AllAdded                                   // the roster is exhausted: report and unsubscribe
    | Progress(next: Spawn, joined: seq<Enemy>)  // `joined` entered the game this tick

  /**
   * One tick of the game listener. `fires` is what the add timer's `tick()`
   * answers on this tick, if it is asked.
   */
  function TickStep(s: Spawn, fires: bool): (r: TickOutcome)
    ensures r.AllAdded? <==> s.toAdd == [] && s.pending.None?
    ensures r.Progress? ==> |r.joined| <= 1 && r.next.inGame == s.inGame + r.joined
    ensures r.Progress? && s.pending.None? ==> r.next.toAdd == s.toAdd[1..]
    ensures r.Progress? && s.pending.Some? ==> r.next.toAdd == s.toAdd
    ensures r.Progress? && s.pending.None? && s.toAdd[0].addDelay < ImmediateDelay ==>
      r.joined == [s.toAdd[0]] && r.next.pending.None?
    ensures r.Progress? && !(s.pending.None? && s.toAdd[0].addDelay < ImmediateDelay) ==>
      var waiting := if s.pending.Some? then s.pending.value else s.toAdd[0];
      if fires then r.joined == [waiting] && r.next.pending.None?
      else r.joined == [] && r.next.pending == Some(waiting)
  {
    if s.toAdd == [] && s.pending.None? then
      AllAdded
    else
      if s.pending.None? && s.toAdd[0].addDelay < ImmediateDelay then
        Progress(Spawn(s.toAdd[1..], None, s.inGame + [s.toAdd[0]]), [s.toAdd[0]])
      else
        // the enemy waiting on the add timer, taken off the roster if none was waiting yet
        var waiting := if s.pending.Some? then s.pending.value else s.toAdd[0];
        var rest := if s.pending.Some? then s.toAdd else s.toAdd[1..];
        if fires then Progress(Spawn(rest, None, s.inGame + [waiting]), [waiting])
        else Progress(Spawn(rest, Some(waiting), s.inGame), [])
  }

  /** A tick moves enemies between the lists and never gains or loses one. */
  lemma TickKeepsMembers(s: Spawn, fires: bool)
    requires TickStep(s, fires).Progress?
    ensures Members(TickStep(s, fires).next) == Members(s)
  {
    if s.pending.None? {
      assert s.toAdd == [s.toAdd[0]] + s.toAdd[1..];
    }
  }

  /** The position of the first occurrence of `x` in `s`. */
  function FirstIndex(s: seq<Enemy>, x: Enemy): (i: nat)
    requires x in s
    ensures i < |s| && s[i] == x && x !in s[..i]
  {
    if s[0] == x then 0 else 1 + FirstIndex(s[1..], x)
  }

  /** `ArrayList.remove(Object)`: drops the first occurrence, if there is one, and keeps the rest in order. */
  function RemoveFirst(s: seq<Enemy>, x: Enemy): (r: seq<Enemy>)
    ensures x in s ==> r == s[..FirstIndex(s, x)] + s[FirstIndex(s, x) + 1..]
    ensures x in s ==> multiset(r) == multiset(s) - multiset{x} && |r| == |s| - 1
    ensures x !in s ==> r == s
  {
    if s == [] then []
    else
      assert s == [s[0]] + s[1..];
      if s[0] == x then s[1..]
      else
        var rest := RemoveFirst(s[1..], x);
        if x in s then
          SkipFirstIndex(s, x);
          [s[0]] + rest
        else
          [s[0]] + rest
  }

  /** Past a head that is not `x`, the first occurrence of `x` sits one step later than in the tail. */
  lemma SkipFirstIndex(s: seq<Enemy>, x: Enemy)
    requires x in s && s[0] != x
    ensures FirstIndex(s, x) == FirstIndex(s[1..], x) + 1
    ensures s[..FirstIndex(s, x)] + s[FirstIndex(s, x) + 1..]
      == [s[0]] + (s[1..][..FirstIndex(s[1..], x)] + s[1..][FirstIndex(s[1..], x) + 1..])
  {
    var j := FirstIndex(s[1..], x);
    assert s[..j + 1] == [s[0]] + s[1..][..j];
    assert s[j + 2..] == s[1..][j + 1..];
  }

  /** The lists after the enemy listener has seen `e` leave the game. */
  function RemovalStep(s: Spawn, e: Enemy): (r: Spawn)
    ensures r.toAdd == s.toAdd && r.pending == s.pending
    ensures e in s.inGame ==> Members(r) == Members(s) - multiset{e}
    ensures e !in s.inGame ==> r == s
  {
    Spawn(s.toAdd, s.pending, RemoveFirst(s.inGame, e))
  }

  /** The wave is done exactly when the enemy that left was the last one it tracked. */
  lemma DoneIffLastMemberLeft(s: Spawn, e: Enemy)
    requires e in s.inGame
    ensures Finished(RemovalStep(s, e)) <==> Members(s) == multiset{e}
  {
  }

  /** The lists after `n` ticks on which the add timer never fires (stopping once all are added). */
  function AfterTicks(s: Spawn, n: nat): Spawn
    decreases n
  {
    if n == 0 then s
    else match TickStep(s, false)
      case AllAdded => s
      case Progress(next, _) => AfterTicks(next, n - 1)
  }

  /**
   * With every delay below the threshold, a roster of N enemies enters the
   * game one enemy per tick, in roster order: after k < N ticks the rest of
   * the roster is still waiting, after N ticks all of it is in the game, and
   * only tick N + 1 reports that all enemies were added.
   */
  lemma {:induction false} ImmediateRosterOnePerTick(s: Spawn, k: nat)
    requires s.pending.None?
    requires forall i :: 0 <= i < |s.toAdd| ==> s.toAdd[i].addDelay < ImmediateDelay
    requires k <= |s.toAdd|
    ensures AfterTicks(s, k) == Spawn(s.toAdd[k..], None, s.inGame + s.toAdd[..k])
    ensures k < |s.toAdd| ==> TickStep(AfterTicks(s, k), false).Progress?
    ensures k == |s.toAdd| ==> TickStep(AfterTicks(s, k), false).AllAdded?
    decreases k
  {
    if k > 0 {
      var next := Spawn(s.toAdd[1..], None, s.inGame + [s.toAdd[0]]);
      assert TickStep(s, false) == Progress(next, [s.toAdd[0]]);
      forall i | 0 <= i < |next.toAdd|
        ensures next.toAdd[i].addDelay < ImmediateDelay
      {
        assert next.toAdd[i] == s.toAdd[i + 1];
      }
      ImmediateRosterOnePerTick(next, k - 1);
      assert next.toAdd[k - 1..] == s.toAdd[k..];
      assert next.inGame + next.toAdd[..k - 1] == s.inGame + s.toAdd[..k];
    }
  }

  // ------------------------------------------------------------------
  // The effect log
  // ------------------------------------------------------------------

  predicate IsPayment(f: Effect) { f.Payment? }
  predicate IsStart(f: Effect) { f.WaveStarted? }

  /** An effect that is neither a payment nor a start. */
  predicate Quiet(f: Effect) { !f.Payment? && !f.WaveStarted? }

  /** How many entries of `log` satisfy `p`. */
  function Tally(log: seq<Effect>, p: Effect -> bool): (n: nat)
    ensures n <= |log|
  {
    if log == [] then 0 else Tally(log[..|log| - 1], p) + (if p(log[|log| - 1]) then 1 else 0)
  }

  lemma {:induction false} TallyAppend(a: seq<Effect>, b: seq<Effect>, p: Effect -> bool)
    ensures Tally(a + b, p) == Tally(a, p) + Tally(b, p)
  {
    if b == [] {
      assert a + b == a;
    } else {
      assert (a + b)[..|a + b| - 1] == a + b[..|b| - 1];
      assert (a + b)[|a + b| - 1] == b[|b| - 1];
      TallyAppend(a, b[..|b| - 1], p);
    }
  }

  /** What `abort` does to each enemy in the game, in list order: stop watching it, then ask it to leave. */
  function Dismissals(es: seq<Enemy>): (log: seq<Effect>)
    ensures |log| == 2 * |es|
    ensures forall f :: f in log ==> f.Unwatch? || f.RemoveRequest?
    ensures forall f :: f in log ==> Quiet(f)
  {
    if es == [] then []
    else Dismissals(es[..|es| - 1]) + [Unwatch(es[|es| - 1]), RemoveRequest(es[|es| - 1])]
  }

  /** The calls that put `joined` into the game, enemy by enemy: watch it, then hand it to the engine. */
  function Admissions(joined: seq<Enemy>): (log: seq<Effect>)
    ensures |log| == 2 * |joined|
    ensures forall f :: f in log ==> f.Watch? || f.EngineAdd?
    ensures forall f :: f in log ==> Quiet(f)
  {
    if joined == [] then []
    else Admissions(joined[..|joined| - 1]) + [Watch(joined[|joined| - 1]), EngineAdd(joined[|joined| - 1])]
  }

  /** Abort's log, entry by entry: the j-th enemy is unwatched, then asked to leave. */
  lemma {:induction false} DismissalsInOrder(es: seq<Enemy>)
    ensures forall j :: 0 <= j < |es| ==> Dismissals(es)[2 * j] == Unwatch(es[j]) && Dismissals(es)[2 * j + 1] == RemoveRequest(es[j])
  {
    if es != [] {
      var front := es[..|es| - 1];
      DismissalsInOrder(front);
      forall j | 0 <= j < |es|
        ensures Dismissals(es)[2 * j] == Unwatch(es[j]) && Dismissals(es)[2 * j + 1] == RemoveRequest(es[j])
      {
        if j < |es| - 1 {
          assert es[j] == front[j];
        }
      }
    }
  }

  /** Admissions, entry by entry: the j-th joiner is watched, then handed to the engine. */
  lemma {:induction false} AdmissionsInOrder(joined: seq<Enemy>)
    ensures forall j :: 0 <= j < |joined| ==> Admissions(joined)[2 * j] == Watch(joined[j]) && Admissions(joined)[2 * j + 1] == EngineAdd(joined[j])
  {
    if joined != [] {
      var front := joined[..|joined| - 1];
      AdmissionsInOrder(front);
      forall j | 0 <= j < |joined|
        ensures Admissions(joined)[2 * j] == Watch(joined[j]) && Admissions(joined)[2 * j + 1] == EngineAdd(joined[j])
      {
        if j < |joined| - 1 {
          assert joined[j] == front[j];
        }
      }
    }
  }

  // ------------------------------------------------------------------
  // The wave object
  // ------------------------------------------------------------------

  class Wave {
    const enemies: seq<Enemy>
    const waveReward: int
    const healthMultiplier: real
    const rewardMultiplier: real

    var waveRewardGiven: bool
    var nextEnemy: Option<Enemy>
    var toAdd: seq<Enemy>
    var inGame: seq<Enemy>

    ghost var effects: seq<Effect>

    /**
     * The wave reward is paid at most once per start, plus once before the
     * first start (the flag starts out clear): the payments so far, plus one
     * while the flag is clear, never exceed the starts plus one.
     */
    ghost predicate Valid()
      reads this
    {
      Tally(effects, IsPayment) + (if waveRewardGiven then 0 else 1) <= Tally(effects, IsStart) + 1
    }

    function Lists(): Spawn
      reads this
    {
      Spawn(toAdd, nextEnemy, inGame)
    }

    constructor (enemies: seq<Enemy>, waveReward: int, healthMultiplier: real, rewardMultiplier: real)
      ensures this.enemies == enemies && this.waveReward == waveReward
      ensures this.healthMultiplier == healthMultiplier && this.rewardMultiplier == rewardMultiplier
      ensures !waveRewardGiven && nextEnemy.None? && toAdd == [] && inGame == [] && effects == []
      ensures Valid()
    {
      this.enemies := enemies;
      this.waveReward := waveReward;
      this.healthMultiplier := healthMultiplier;
      this.rewardMultiplier := rewardMultiplier;
      waveRewardGiven := false;
      nextEnemy := None;
      toAdd := [];
      inGame := [];
      effects := [];
    }

    /** Scales each roster enemy's health and reward modifiers by the wave's multipliers, once per roster entry. */
    method OnXmlCommit()
      modifies (set e | e in enemies)`healthModifier, (set e | e in enemies)`rewardModifier
      ensures forall e :: e in enemies ==>
        && e.healthModifier == Compounded(old(e.healthModifier), healthMultiplier, Count(enemies, e))
        && e.rewardModifier == Compounded(old(e.rewardModifier), rewardMultiplier, Count(enemies, e))
    {
      for i := 0 to |enemies|
        invariant forall e :: e in enemies ==>
          && e.healthModifier == Compounded(old(e.healthModifier), healthMultiplier, Count(enemies[..i], e))
          && e.rewardModifier == Compounded(old(e.rewardModifier), rewardMultiplier, Count(enemies[..i], e))
      {
        var e := enemies[i];
        label Before:
        e.ModifyHealth(healthMultiplier);
        e.ModifyReward(rewardMultiplier);
        forall x | x in enemies
          ensures x.healthModifier == Compounded(old(x.healthModifier), healthMultiplier, Count(enemies[..i + 1], x))
          ensures x.rewardModifier == Compounded(old(x.rewardModifier), rewardMultiplier, Count(enemies[..i + 1], x))
        {
          assert enemies[..i + 1][..i] == enemies[..i];
        }
      }
      assert enemies[..|enemies|] == enemies;
    }

    /** Queues the whole roster behind whatever is still queued, subscribes to game ticks and reports the start. */
    method Start()
      requires Valid()
      modifies this`waveRewardGiven, this`toAdd, this`effects
      ensures !waveRewardGiven && toAdd == old(toAdd) + enemies
      ensures effects == old(effects) + [TickSubscribe, WaveStarted]
      ensures Valid()
    {
      waveRewardGiven := false;
      toAdd := toAdd + enemies;
      TallyAppend(effects, [TickSubscribe, WaveStarted], IsPayment);
      TallyAppend(effects, [TickSubscribe, WaveStarted], IsStart);
      effects := effects + [TickSubscribe, WaveStarted];
    }

    /**
     * Unsubscribes from game ticks, removes every enemy in the game and forgets
     * every enemy not yet added. The engine reference is only set by `start`,
     * so the wave must have been started.
     */
    method Abort()
      requires Tally(effects, IsStart) > 0
      modifies this`toAdd, this`inGame, this`nextEnemy, this`effects
      ensures toAdd == [] && inGame == [] && nextEnemy.None?
      ensures effects == old(effects) + [TickUnsubscribe] + Dismissals(old(inGame))
      ensures old(Valid()) ==> Valid()
    {
      effects := effects + [TickUnsubscribe];
      var es := inGame;
      for i := 0 to |es|
        invariant effects == old(effects) + [TickUnsubscribe] + Dismissals(es[..i])
      {
        var e := es[i];
        assert es[..i + 1][..i] == es[..i];
        effects := effects + [Unwatch(e), RemoveRequest(e)];
      }
      assert es[..|es|] == es;
      QuietKeepsTallies(old(effects), [TickUnsubscribe] + Dismissals(es));
      assert effects == old(effects) + ([TickUnsubscribe] + Dismissals(es));
      inGame := [];
      toAdd := [];
      nextEnemy := None;
    }

    /** Pays the wave reward unless it was already paid since the last start. */
    method GiveWaveReward()
      requires Valid()
      modifies this`waveRewardGiven, this`effects
      ensures waveRewardGiven
      ensures effects == old(effects) + (if old(waveRewardGiven) then [] else [Payment(waveReward)])
      ensures Valid()
    {
      if !waveRewardGiven {
        waveRewardGiven := true;
        TallyAppend(effects, [Payment(waveReward)], IsPayment);
        TallyAppend(effects, [Payment(waveReward)], IsStart);
        effects := effects + [Payment(waveReward)];
      }
    }

    /** Pays the wave reward, then tells the listeners the wave is done. */
    method OnWaveDone()
      requires Valid()
      modifies this`waveRewardGiven, this`effects
      ensures waveRewardGiven
      ensures effects == old(effects) + (if old(waveRewardGiven) then [] else [Payment(waveReward)]) + [WaveDone]
      ensures Valid()
    {
      GiveWaveReward();
      QuietKeepsTallies(effects, [WaveDone]);
      effects := effects + [WaveDone];
    }

    /** The game listener's tick: see `TickStep`. */
    method OnTick(fires: bool)
      requires Valid()
      modifies this`toAdd, this`nextEnemy, this`inGame, this`effects
      ensures TickStep(old(Lists()), fires).AllAdded? ==>
        Lists() == old(Lists()) && effects == old(effects) + [AllEnemiesAdded, TickUnsubscribe]
      ensures TickStep(old(Lists()), fires).Progress? ==>
        && Lists() == TickStep(old(Lists()), fires).next
        && effects == old(effects) + Admissions(TickStep(old(Lists()), fires).joined)
      ensures Valid()
    {
      if toAdd == [] && nextEnemy.None? {
        QuietKeepsTallies(effects, [AllEnemiesAdded, TickUnsubscribe]);
        effects := effects + [AllEnemiesAdded, TickUnsubscribe];
        return;
      }
      if nextEnemy.None? {
        var e := toAdd[0];
        toAdd := toAdd[1..];
        if e.addDelay < ImmediateDelay {
          Admit(e);
        } else {
          nextEnemy := Some(e);
        }
      }
      if nextEnemy.Some? && fires {
        Admit(nextEnemy.value);
        nextEnemy := None;
      }
    }

    /** Watches `e`, hands it to the engine and counts it as in the game. */
    method Admit(e: Enemy)
      requires Valid()
      modifies this`inGame, this`effects
      ensures inGame == old(inGame) + [e]
      ensures effects == old(effects) + Admissions([e])
      ensures Valid()
    {
      assert Admissions([e]) == [Watch(e), EngineAdd(e)];
      QuietKeepsTallies(effects, [Watch(e), EngineAdd(e)]);
      effects := effects + [Watch(e), EngineAdd(e)];
      inGame := inGame + [e];
    }

    /** The enemy listener's removal callback: stops watching `e`, forgets it and reports; the last one out ends the wave. */
    method OnEnemyRemoved(e: Enemy)
      requires Valid()
      modifies this`inGame, this`waveRewardGiven, this`effects
      ensures Lists() == RemovalStep(old(Lists()), e)
      ensures Finished(Lists()) ==>
        && waveRewardGiven
        && effects == old(effects) + [Unwatch(e), EnemyRemoved(e)]
                      + (if old(waveRewardGiven) then [] else [Payment(waveReward)]) + [WaveDone]
      ensures !Finished(Lists()) ==>
        waveRewardGiven == old(waveRewardGiven) && effects == old(effects) + [Unwatch(e), EnemyRemoved(e)]
      ensures Valid()
    {
      QuietKeepsTallies(effects, [Unwatch(e), EnemyRemoved(e)]);
      effects := effects + [Unwatch(e), EnemyRemoved(e)];
      inGame := RemoveFirst(inGame, e);
      if inGame == [] && toAdd == [] && nextEnemy.None? {
        OnWaveDone();
      }
    }
  }

  /** `a` multiplied by `f`, `n` times over. */
  function Compounded(a: real, f: real, n: nat): real {
    if n == 0 then a else Compounded(a, f, n - 1) * f
  }

  /** How many times `e` appears in `s`. */
  function Count(s: seq<Enemy>, e: Enemy): nat {
    if s == [] then 0 else Count(s[..|s| - 1], e) + (if s[|s| - 1] == e then 1 else 0)
  }

  /** Appending effects that are neither payments nor starts leaves both tallies as they were. */
  lemma {:induction false} QuietKeepsTallies(log: seq<Effect>, tail: seq<Effect>)
    requires forall f :: f in tail ==> Quiet(f)
    ensures Tally(log + tail, IsPayment) == Tally(log, IsPayment)
    ensures Tally(log + tail, IsStart) == Tally(log, IsStart)
  {
    if tail == [] {
      assert log + tail == log;
    } else {
      var front := tail[..|tail| - 1];
      assert forall f :: f in front ==> f in tail;
      QuietKeepsTallies(log, front);
      assert (log + tail)[..|log + tail| - 1] == log + front;
      assert (log + tail)[|log + tail| - 1] == tail[|tail| - 1];
      assert Quiet(tail[|tail| - 1]) by {
        assert tail[|tail| - 1] in tail;
      }
    }
  }
}
