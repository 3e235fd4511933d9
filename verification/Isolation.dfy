/** Series do not interfere: each key behaves like a damper of its own. */
module Isolation {
  import opened Wrappers
  import opened Clock
  import opened Damper
  import DamperRuns

  /** The call belongs to the damped history of the key. */
  predicate Concerns<K(==)>(c: Commit<K>, key: K) {
    Damped(c) && c.key == key
  }

  /** The damped calls of one key, in lock order. */
  function Project<K(==)>(log: seq<Commit<K>>, key: K): seq<Reading> {
    if log == [] then [] else
      var init, c := Project(log[..|log| - 1], key), log[|log| - 1];
      if Concerns(c, key) then init + [ReadingOf(c)] else init
  }

  /** What the whole service replied to the damped calls of one key, in lock order. */
  function RepliesFor<K(==)>(log: seq<Commit<K>>, key: K): seq<real> {
    if log == [] then [] else
      var init, c := log[..|log| - 1], log[|log| - 1];
      if Concerns(c, key) then RepliesFor(init, key) + [Reply(Table(init), c)]
      else RepliesFor(init, key)
  }

  /**
   * Over any interleaving, the state kept for a key and everything replied to it are those of a
   * run holding only that key's own damped calls.
   */
  lemma {:induction false} KeysDoNotInterfere<K>(log: seq<Commit<K>>, key: K)
    ensures Lookup(Table(log), key) == State(Project(log, key))
    ensures RepliesFor(log, key) == Reports(Project(log, key))
  {
    if log == [] {
    } else {
      var init, c := log[..|log| - 1], log[|log| - 1];
      KeysDoNotInterfere(init, key);
      if Concerns(c, key) {
        var h := Project(init, key) + [ReadingOf(c)];
        assert h[..|h| - 1] == Project(init, key);
      }
    }
  }

  /** The reply to a key's last damped call is the last report of its history. */
  lemma {:induction false} LastReply<K>(log: seq<Commit<K>>, c: Commit<K>)
    requires Damped(c)
    ensures var h := Project(log + [c], c.key);
            && h == Project(log, c.key) + [ReadingOf(c)]
            && Reply(Table(log), c) == Reports(h)[|h| - 1]
  {
    hide Table, Reports;
    assert (log + [c])[..|log|] == log;
    KeysDoNotInterfere(log + [c], c.key);
    var replies := RepliesFor(log + [c], c.key);
    assert replies == RepliesFor(log, c.key) + [Reply(Table(log), c)];
  }

  /** Calls that do not concern a key leave its history alone. */
  lemma {:induction false} ProjectConcat<K>(log: seq<Commit<K>>, more: seq<Commit<K>>, key: K)
    requires forall c :: c in more ==> !Concerns(c, key)
    ensures Project(log + more, key) == Project(log, key)
  {
    if more == [] {
      assert log + more == log;
    } else {
      var init := more[..|more| - 1];
      assert (log + more)[..|log + more| - 1] == log + init;
      ProjectConcat(log, init, key);
    }
  }

  /** Two services that saw the same damped calls of a key agree on it, whatever else they served. */
  lemma ErasingOthersIsInvisible<K>(log: seq<Commit<K>>, other: seq<Commit<K>>, key: K)
    requires Project(log, key) == Project(other, key)
    ensures Lookup(Table(log), key) == Lookup(Table(other), key)
    ensures RepliesFor(log, key) == RepliesFor(other, key)
  {
    KeysDoNotInterfere(log, key);
    KeysDoNotInterfere(other, key);
  }

  /** The run that keeps only the key's own damped calls. */
  function Only<K(==)>(log: seq<Commit<K>>, key: K): seq<Commit<K>> {
    if log == [] then [] else
      var init, c := Only(log[..|log| - 1], key), log[|log| - 1];
      if Concerns(c, key) then init + [c] else init
  }

  lemma {:induction false} OnlyKeepsProjection<K>(log: seq<Commit<K>>, key: K)
    ensures Project(Only(log, key), key) == Project(log, key)
  {
    if log == [] {
    } else {
      var init, c := log[..|log| - 1], log[|log| - 1];
      OnlyKeepsProjection(init, key);
      if Concerns(c, key) {
        var kept := Only(init, key) + [c];
        assert kept[..|kept| - 1] == Only(init, key);
      }
    }
  }

  /** Other keys and zero-cooldown calls can be erased from a run. */
  lemma OthersCanBeErased<K>(log: seq<Commit<K>>, key: K)
    ensures RepliesFor(Only(log, key), key) == RepliesFor(log, key)
    ensures Lookup(Table(Only(log, key)), key) == Lookup(Table(log), key)
  {
    OnlyKeepsProjection(log, key);
    ErasingOthersIsInvisible(Only(log, key), log, key);
  }

  // ----- What the windows of a key do not cover -----

  /**
   * The last scale-down of the history, unless it was stamped with the zero instant, does not hold
   * back a call with this cooldown and time.
   */
  ghost predicate Unheld(h: seq<Reading>, cooldown: Duration, now: Instant) {
    forall d: nat ::
      DamperRuns.LastDropBefore(h, |h|, d) && h[d].now != ZERO_INSTANT ==>
        now - h[d].now >= cooldown
  }

  /**
   * The cooldown is not part of the key, so a call answers to its own cooldown only. After any log,
   * a call is answered below the key's last damped report exactly when its value is below it and
   * the call is undamped, or its own cooldown, however short, has passed since the key's last
   * scale-down, unless that one was stamped with the zero instant; the cooldowns of the key's other
   * calls play no part.
   */
  lemma {:induction false} UndercutsExactly<K>(log: seq<Commit<K>>, c: Commit<K>)
    requires Project(log, c.key) != []
    ensures var h := Project(log, c.key);
            var last := Reports(h)[|h| - 1];
            Reply(Table(log), c) < last
            <==> c.measured < last && (c.cooldown <= 0 || Unheld(h, c.cooldown, c.now))
  {
    hide Reports, Project, Table;
    if Damped(c) {
      KeysDoNotInterfere(log, c.key);
      NextReport(Project(log, c.key), ReadingOf(c));
    }
  }

  /** The next report of a series, against its last one. */
  lemma {:induction false} NextReport(h: seq<Reading>, r: Reading)
    requires h != []
    ensures var reported := Apply(State(h), r).reported;
            reported < Reports(h)[|h| - 1]
            <==> r.measured < Reports(h)[|h| - 1] && Unheld(h, r.cooldown, r.now)
  {
    hide Reports, State, Apply, DamperRuns.LatestDrop, DamperRuns.Dropped;
    var h', n := h + [r], |h|;
    DamperRuns.ReportsPrefix(h', n);
    assert h'[..n] == h && h[..n] == h;
    assert Reports(h')[n - 1] == Reports(h')[..n][n - 1];
    DamperRuns.ReportAt(h', n);
    DamperRuns.ScaleUpNeverDelayed(h', n);
    if r.measured < Reports(h)[n - 1] {
      DamperRuns.FallAdmitted(h', n);
      DamperRuns.LatestDropIsLast(h, n);
      var d := DamperRuns.LatestDrop(h);
      assert forall k: nat :: DamperRuns.LastDropBefore(h, n, k) ==> d == Some(k);
    }
  }

  /**
   * One run as a witness: inside the window that a 60 ns call is still held by, an undamped call
   * and a 1 ns call are answered with their value, and the latter lowers the baseline as well.
   */
  lemma OthersWindowUndercut<K>(key: K)
    ensures var log := [Commit(key, 9.0, 60, 1), Commit(key, 5.0, 60, 2)];
            && Reply(Table(log), Commit(key, 3.0, 60, 3)) == 5.0
            && Reply(Table(log), Commit(key, 3.0, 0, 3)) == 3.0
            && Reply(Table(log), Commit(key, 3.0, 1, 3)) == 3.0
            && TableStep(Table(log), Commit(key, 3.0, 0, 3)) == map[key := Cell(5.0, 2)]
            && TableStep(Table(log), Commit(key, 3.0, 1, 3)) == map[key := Cell(3.0, 3)]
  {
    var log := [Commit(key, 9.0, 60, 1), Commit(key, 5.0, 60, 2)];
    assert log[..1] == [Commit(key, 9.0, 60, 1)];
    assert log[..1][..0] == [];
    assert Table(log[..1]) == map[key := Cell(9.0, ZERO_INSTANT)];
    assert Table(log) == map[key := Cell(5.0, 2)];
  }
}
