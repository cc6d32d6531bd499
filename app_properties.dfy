/**
 * Properties of the key dispatch: how each mode treats each key, and what
 * holds of every sequence of key presses the event loop may be fed.
 */
module AppProperties {
  import opened Wrappers
  import opened StatefulLists
  import opened App

  /** `Normal` mode: the key table, and every other key changes nothing. */
  lemma NormalModeKeys(s: Snapshot, key: Key)
    requires s.mode == Normal
    ensures key == Char('q') ==> Step(s, key) == Quit(s)
    ensures key == Char('a') ==> Step(s, key) == Continue(s.(mode := Add))
    ensures key == Char('e') ==> Step(s, key) == Continue(s.(mode := Update))
    ensures key == Left ==> Step(s, key) == Continue(s.(selected := None))
    ensures key == Down && (s.selected.None? || |s.items| > 0) ==> Step(s, key) == Continue(s.(selected := Some(NextIndex(s.selected, |s.items|))))
    ensures key == Up && (s.selected != Some(0) || |s.items| > 0) ==> Step(s, key) == Continue(s.(selected := Some(PreviousIndex(s.selected, |s.items|))))
    ensures key !in {Char('q'), Char('a'), Char('e'), Left, Down, Up} ==> Step(s, key) == Continue(s)
  {
  }

  /**
   * `Update` mode: a character, whatever it is, is appended to the selected
   * item and to no other, and the cursor and the mode stay as they are.
   */
  lemma UpdateModeTyping(s: Snapshot, c: char)
    requires s.mode == Update && WellFormed(s) && s.selected.Some?
    ensures Step(s, Char(c)).Continue?
    ensures var t := Step(s, Char(c)).state;
      && |t.items| == |s.items|
      && t.items[s.selected.value] == s.items[s.selected.value] + [c]
      && (forall j :: 0 <= j < |s.items| && j != s.selected.value ==> t.items[j] == s.items[j])
      && t.selected == s.selected && t.mode == Update
  {
  }

  /** `Update` mode: Enter returns to `Normal` mode, every other non-character key changes nothing. */
  lemma UpdateModeControlKeys(s: Snapshot, key: Key)
    requires s.mode == Update && !key.Char?
    ensures key == Enter ==> Step(s, key) == Continue(s.(mode := Normal))
    ensures key != Enter ==> Step(s, key) == Continue(s)
  {
  }

  /** Feeding two key sequences one after the other is feeding their concatenation. */
  lemma {:induction false} RunAppend(s: Snapshot, first: seq<Key>, rest: seq<Key>)
    ensures Run(s, first + rest) ==
              match Run(s, first)
              case Continue(t) => Run(t, rest)
              case Quit(t) => Quit(t)
              case Panic => Panic
    decreases |first|
  {
    if first == [] {
      assert first + rest == rest;
    } else {
      assert (first + rest)[0] == first[0];
      assert (first + rest)[1..] == first[1..] + rest;
      match Step(s, first[0])
      case Continue(t) => RunAppend(t, first[1..], rest);
      case Quit(_) =>
      case Panic =>
    }
  }

  /** The placeholder modes `Add` and `Delete` ignore every key, forever. */
  lemma {:induction false} PlaceholderModesAbsorb(s: Snapshot, keys: seq<Key>)
    requires s.mode == Add || s.mode == Delete
    ensures Run(s, keys) == Continue(s)
    decreases |keys|
  {
    if keys != [] {
      PlaceholderModesAbsorb(s, keys[1..]);
    }
  }

  /** No sequence of key presses leads into `Delete` mode from any other mode. */
  lemma {:induction false} DeleteUnreachable(s: Snapshot, keys: seq<Key>)
    requires s.mode != Delete
    ensures !Run(s, keys).Panic? ==> Run(s, keys).state.mode != Delete
    decreases |keys|
  {
    if keys != [] {
      match Step(s, keys[0])
      case Continue(t) => DeleteUnreachable(t, keys[1..]);
      case Quit(_) =>
      case Panic =>
    }
  }

  /**
   * On a non-empty list, every sequence of key presses keeps the items'
   * count and keeps the cursor on an item, and it can fail only by typing
   * in `Update` mode with nothing selected.
   */
  lemma {:induction false} RunKeepsWellFormed(s: Snapshot, keys: seq<Key>)
    requires WellFormed(s) && |s.items| > 0
    ensures !Run(s, keys).Panic? ==>
              WellFormed(Run(s, keys).state) && |Run(s, keys).state.items| == |s.items|
    ensures Run(s, keys).Panic? ==>
              exists n :: 0 <= n < |keys| && !Run(s, keys[..n]).Panic? &&
                var t := Run(s, keys[..n]).state;
                t.mode == Update && t.selected.None? && keys[n].Char?
    decreases |keys|
  {
    if keys != [] {
      assert keys[..0] == [];
      match Step(s, keys[0])
      case Continue(t) =>
        RunKeepsWellFormed(t, keys[1..]);
        if Run(s, keys).Panic? {
          var n :| 0 <= n < |keys[1..]| && !Run(t, keys[1..][..n]).Panic? &&
                   var u := Run(t, keys[1..][..n]).state;
                   u.mode == Update && u.selected.None? && keys[1..][n].Char?;
          assert keys[..n + 1] == [keys[0]] + keys[1..][..n];
          assert keys[..n + 1][0] == keys[0] && keys[..n + 1][1..] == keys[1..][..n];
        }
      case Quit(_) =>
      case Panic =>
    }
  }

  /** `k` presses of the same key. */
  function Repeat(key: Key, k: nat): (keys: seq<Key>)
    ensures |keys| == k
    ensures forall j :: 0 <= j < k ==> keys[j] == key
  {
    if k == 0 then [] else [key] + Repeat(key, k - 1)
  }

  /** A positive multiple of `n` is at least `n`. */
  lemma MulAtLeast(d: int, n: int)
    requires n > 0 && d >= 1
    ensures d * n >= n
  {
  }

  /** Euclidean division has one remainder: `q * n + r` with `0 <= r < n` leaves `r`. */
  lemma ModUnique(a: int, n: int, q: int, r: int)
    requires n > 0 && 0 <= r < n && a == q * n + r
    ensures a % n == r
  {
    var q', r' := a / n, a % n;
    assert (q - q') * n == r' - r;
    if q > q' {
      MulAtLeast(q - q', n);
    } else if q < q' {
      MulAtLeast(q' - q, n);
    }
  }

  /** Shifting a wrapped position by `b` is shifting the unwrapped one. */
  lemma ModShift(a: int, b: int, n: int)
    requires n > 0
    ensures (a % n + b) % n == (a + b) % n
  {
    var c := a % n + b;
    var q, q2 := a / n, c / n;
    assert a + b == (q + q2) * n + c % n;
    ModUnique(a + b, n, q + q2, c % n);
  }

  /** In `Normal` mode, `k` Down presses move the cursor from `i` to `(i + k) mod len`. */
  lemma {:induction false} DownPresses(s: Snapshot, k: nat)
    requires s.mode == Normal && s.selected.Some? && s.selected.value < |s.items|
    ensures Run(s, Repeat(Down, k)) ==
              Continue(s.(selected := Some((s.selected.value + k) % |s.items|)))
    decreases k
  {
    var n, i := |s.items|, s.selected.value;
    if k == 0 {
      ModUnique(i, n, 0, i);
      assert s.(selected := Some(i)) == s;
    } else {
      var t := s.(selected := Some((i + 1) % n));
      assert Step(s, Down) == Continue(t);
      DownPresses(t, k - 1);
      ModShift(i + 1, k - 1, n);
    }
  }

  /** In `Normal` mode, `k` Up presses move the cursor from `i` to `(i - k) mod len`. */
  lemma {:induction false} UpPresses(s: Snapshot, k: nat)
    requires s.mode == Normal && s.selected.Some? && s.selected.value < |s.items|
    ensures Run(s, Repeat(Up, k)) ==
              Continue(s.(selected := Some((s.selected.value - k) % |s.items|)))
    decreases k
  {
    var n, i := |s.items|, s.selected.value;
    if k == 0 {
      ModUnique(i, n, 0, i);
      assert s.(selected := Some(i)) == s;
    } else {
      var t := s.(selected := Some((i - 1 + n) % n));
      assert Step(s, Up) == Continue(t);
      UpPresses(t, k - 1);
      ModShift(i - 1 + n, -(k - 1), n);
      ModShift(i - k, n, n);
      ModUnique((i - k) % n + n, n, 1, (i - k) % n);
    }
  }

  /** Pressing Down once per item brings the cursor back to where it was. */
  lemma FullCycleDown(s: Snapshot)
    requires s.mode == Normal && s.selected.Some? && s.selected.value < |s.items|
    ensures Run(s, Repeat(Down, |s.items|)) == Continue(s)
  {
    var n, i := |s.items|, s.selected.value;
    var m := (i + n) % n;
    assert m == i by { ModUnique(i + n, n, 1, i); }
    var t := s.(selected := Some(m));
    assert t == s;
    DownPresses(s, n);
    assert Run(s, Repeat(Down, n)) == Continue(t);
  }

  /** Pressing Up once per item brings the cursor back to where it was. */
  lemma FullCycleUp(s: Snapshot)
    requires s.mode == Normal && s.selected.Some? && s.selected.value < |s.items|
    ensures Run(s, Repeat(Up, |s.items|)) == Continue(s)
  {
    var n, i := |s.items|, s.selected.value;
    var m := (i - n) % n;
    assert m == i by { ModUnique(i - n, n, -1, i); }
    var t := s.(selected := Some(m));
    assert t == s;
    UpPresses(s, n);
    assert Run(s, Repeat(Up, n)) == Continue(t);
  }

  /**
   * Editing the program's seed list: two Down presses select the second
   * entry, `e` enters `Update` mode, `!` is appended and Enter leaves.
   */
  lemma SeedEditRoundTrip()
    ensures Run(Initial(Seed), [Down, Down, Char('e'), Char('!'), Enter]) ==
              Continue(Snapshot([Seed[0], "Finish a project!", Seed[2]], Some(1), Normal))
  {
    var keys := [Down, Down, Char('e'), Char('!'), Enter];
    var s1 := Snapshot(Seed, Some(0), Normal);
    var s2 := Snapshot(Seed, Some(1), Normal);
    var s3 := s2.(mode := Update);
    var s4 := s3.(items := [Seed[0], "Finish a project!", Seed[2]]);
    assert Seed[1] + ['!'] == "Finish a project!";
    assert Step(s3, Char('!')) == Continue(s4);
    RunAppend(Initial(Seed), keys[..4], keys[4..]);
    assert keys[..4][1..] == [Down, Char('e'), Char('!')];
  }

  /**
   * Pressing Down on an empty list selects 0, which designates no item;
   * after `e`, the next character typed makes the dispatch panic on it.
   */
  lemma TypingPastEmptyListPanics(c: char)
    ensures Run(Initial([]), [Down, Char('e')]) == Continue(Snapshot([], Some(0), Update))
    ensures Run(Initial([]), [Down, Char('e'), Char(c)]) == Panic
  {
    var selected := Snapshot([], Some(0), Normal);
    var editing := selected.(mode := Update);
    assert Step(Initial([]), Down) == Continue(selected);
    assert Step(selected, Char('e')) == Continue(editing);
    assert Step(editing, Char(c)) == Panic;
    assert Run(editing, [Char(c)]) == Panic;
    assert [Char('e'), Char(c)][1..] == [Char(c)];
    assert Run(selected, [Char('e'), Char(c)]) == Panic;
    assert [Down, Char('e'), Char(c)][1..] == [Char('e'), Char(c)];
    assert [Down, Char('e')][1..] == [Char('e')];
  }

  /**
   * Pressing `e` with nothing selected enters `Update` mode, and the next
   * character typed makes the dispatch panic on the missing cursor.
   */
  lemma TypingWithoutSelectionPanics(c: char)
    ensures Run(Initial(Seed), [Char('e')]) == Continue(Snapshot(Seed, None, Update))
    ensures Run(Initial(Seed), [Char('e'), Char(c)]) == Panic
  {
    assert [Char('e'), Char(c)][1..] == [Char(c)];
  }

  /**
   * On an empty list, Up steps a cursor other than 0 back without reading
   * the length; only a cursor on 0 makes it compute `len - 1` and panic.
   */
  lemma UpOnEmptyList(j: nat)
    ensures Step(Snapshot([], Some(j + 1), Normal), Up) == Continue(Snapshot([], Some(j), Normal))
    ensures Step(Snapshot([], Some(0), Normal), Up) == Panic
    ensures Step(Snapshot([], Some(j), Normal), Down) == Panic
  {
  }
}
