/** The motor registry: a list kept free of duplicate names by erasing what is gone and then
    discovering what is new. */
module MotorRegistry {
  import opened Codec
  import opened Options

  /** A motor: its name, and which opening of a device file it is. */
  datatype Motor = Motor(name: seq<byte>, handle: nat)

  /** A directory entry: whether a motor can be opened there, which one, and whether it can be reset. */
  datatype Entry = Entry(opens: bool, motor: Motor, resets: bool)

  /** What a rescan meets: which registered motors can still be probed, and the directory, if it can
      be opened. */
  datatype World = World(good: Motor -> bool, directory: seq<Entry>)

  // -------------------------------------------------------------------- specification

  function Survivors(motors: seq<Motor>, good: Motor -> bool): seq<Motor> {
    if motors == [] then []
    else
      var m := motors[|motors| - 1];
      Survivors(motors[..|motors| - 1], good) + if good(m) then [m] else []
  }

  predicate HasName(motors: seq<Motor>, name: seq<byte>) {
    exists m <- motors :: m.name == name
  }

  predicate FirstNamed(motors: seq<Motor>, name: seq<byte>, i: nat)
    requires i < |motors|
  {
    motors[i].name == name && forall j :: 0 <= j < i ==> motors[j].name != name
  }

  predicate Usable(e: Entry) {
    e.opens && e.resets
  }

  /** Entry `k` brings in a motor: it is usable, its name is not taken by a survivor, and no earlier
      usable entry has that name. */
  predicate Wins(kept: seq<Motor>, dir: seq<Entry>, k: nat)
    requires k < |dir|
  {
    && Usable(dir[k])
    && !HasName(kept, dir[k].motor.name)
    && forall j :: 0 <= j < k && Usable(dir[j]) ==> dir[j].motor.name != dir[k].motor.name
  }

  /** The winners among the first `n` entries, in directory order. */
  function Winners(kept: seq<Motor>, dir: seq<Entry>, n: nat): seq<Motor>
    requires n <= |dir|
  {
    if n == 0 then []
    else Winners(kept, dir, n - 1) + if Wins(kept, dir, n - 1) then [dir[n - 1].motor] else []
  }

  function Rescanned(motors: seq<Motor>, w: World): seq<Motor> {
    var kept := Survivors(motors, w.good);
    kept + Winners(kept, w.directory, |w.directory|)
  }

  predicate Distinct(motors: seq<Motor>) {
    forall i, j :: 0 <= i < j < |motors| ==> motors[i].name != motors[j].name
  }

  // -------------------------------------------------------------------------- the class

  class Motors {
    var motors: seq<Motor>

    constructor (w: World)
      ensures motors == Rescanned([], w)
    {
      motors := [];
      new;
      Rescan(w);
    }

    method Find(name: seq<byte>) returns (r: Option<Motor>)
      ensures r.None? <==> !HasName(motors, name)
      ensures r.Some? ==> exists i :: 0 <= i < |motors| && motors[i] == r.value && FirstNamed(motors, name, i)
    {
      for i := 0 to |motors|
        invariant forall j :: 0 <= j < i ==> motors[j].name != name
      {
        if motors[i].name == name {
          assert FirstNamed(motors, name, i);
          return Some(motors[i]);
        }
      }
      return None;
    }

    method Rescan(w: World)
      modifies this
      ensures motors == Rescanned(old(motors), w)
    {
      Erase(w.good);
      var kept := motors;
      for k := 0 to |w.directory|
        invariant motors == kept + Winners(kept, w.directory, k)
      {
        var e := w.directory[k];
        if e.opens {
          TakenIff(kept, w.directory, k, e.motor.name);
          var found := Find(e.motor.name);
          if found.None? {
            if e.resets {
              motors := motors + [e.motor];
            }
          }
        }
      }
    }

    /** Erases the motors that can no longer be probed. */
    method Erase(good: Motor -> bool)
      modifies this
      ensures motors == Survivors(old(motors), good)
    {
      var left := [];
      for i := 0 to |motors|
        invariant motors == old(motors)
        invariant left == Survivors(motors[..i], good)
      {
        assert motors[..i + 1][..i] == motors[..i];
        if good(motors[i]) {
          left := left + [motors[i]];
        }
      }
      assert motors[..|motors|] == motors;
      motors := left;
    }
  }

  // ------------------------------------------------------------------------------- laws

  /** A name is taken in the middle of a rescan exactly when a survivor or an earlier usable entry
      has it. */
  lemma {:induction false} TakenIff(kept: seq<Motor>, dir: seq<Entry>, n: nat, name: seq<byte>)
    requires n <= |dir|
    ensures HasName(kept + Winners(kept, dir, n), name) <==>
            HasName(kept, name) || exists j :: 0 <= j < n && Usable(dir[j]) && dir[j].motor.name == name
  {
    if n == 0 {
      assert kept + [] == kept;
    } else {
      TakenIff(kept, dir, n - 1, name);
      TakenIff(kept, dir, n - 1, dir[n - 1].motor.name);
      var before := kept + Winners(kept, dir, n - 1);
      var now := kept + Winners(kept, dir, n);
      if Wins(kept, dir, n - 1) {
        assert now == before + [dir[n - 1].motor];
        NameAppend(before, dir[n - 1].motor, name);
      } else {
        assert now == before;
      }
    }
  }

  lemma NameAppend(motors: seq<Motor>, m: Motor, name: seq<byte>)
    ensures HasName(motors + [m], name) <==> HasName(motors, name) || m.name == name
  {
    assert m in motors + [m];
    forall k <- motors ensures k in motors + [m] {
    }
  }

  /** The survivors are exactly the good motors. */
  lemma {:induction false} SurvivorsAreGood(motors: seq<Motor>, good: Motor -> bool, m: Motor)
    ensures m in Survivors(motors, good) <==> m in motors && good(m)
  {
    if motors == [] {
    } else {
      var n := |motors| - 1;
      SurvivorsAreGood(motors[..n], good, m);
      assert motors == motors[..n] + [motors[n]];
    }
  }

  /** They keep their order: a good motor's place is the number of good motors before it. */
  lemma {:induction false} SurvivorsKeepOrder(motors: seq<Motor>, good: Motor -> bool, k: nat)
    requires k < |motors| && good(motors[k])
    ensures var place := |Survivors(motors[..k], good)|;
            place < |Survivors(motors, good)| && Survivors(motors, good)[place] == motors[k]
  {
    var n := |motors| - 1;
    if k < n {
      SurvivorsKeepOrder(motors[..n], good, k);
      assert motors[..n][..k] == motors[..k];
    }
  }

  /** The winners keep their order: an entry's place is the number of winners before it. */
  lemma {:induction false} WinnersKeepOrder(kept: seq<Motor>, dir: seq<Entry>, n: nat, k: nat)
    requires k < n <= |dir| && Wins(kept, dir, k)
    ensures var place := |Winners(kept, dir, k)|;
            place < |Winners(kept, dir, n)| && Winners(kept, dir, n)[place] == dir[k].motor
  {
    if k == n - 1 {
    } else {
      WinnersKeepOrder(kept, dir, n - 1, k);
    }
  }

  /** Nothing but winners comes in. */
  lemma {:induction false} WinnersCount(kept: seq<Motor>, dir: seq<Entry>, n: nat)
    requires n <= |dir|
    ensures |Winners(kept, dir, n)| == |set k | 0 <= k < n && Wins(kept, dir, k)|
  {
    hide Wins;
    var now := set k | 0 <= k < n && Wins(kept, dir, k);
    if n == 0 {
      assert now == {};
    } else {
      WinnersCount(kept, dir, n - 1);
      var before := set k | 0 <= k < n - 1 && Wins(kept, dir, k);
      assert now == if Wins(kept, dir, n - 1) then before + {n - 1} else before;
    }
  }

  /** Entry `k` is the first in the directory that can be opened and reset and has its name, and no good
      motor has it. */
  predicate FirstUsable(motors: seq<Motor>, w: World, k: nat)
    requires k < |w.directory|
  {
    var e := w.directory[k];
    && e.opens && e.resets
    && (forall m <- motors :: w.good(m) ==> m.name != e.motor.name)
    && forall j :: 0 <= j < k && w.directory[j].opens && w.directory[j].resets ==>
         w.directory[j].motor.name != e.motor.name
  }

  lemma FirstUsableWins(motors: seq<Motor>, w: World, k: nat)
    requires k < |w.directory|
    ensures FirstUsable(motors, w, k) <==> Wins(Survivors(motors, w.good), w.directory, k)
  {
    var kept := Survivors(motors, w.good);
    forall m ensures m in kept <==> m in motors && w.good(m) {
      SurvivorsAreGood(motors, w.good, m);
    }
  }

  /** A rescan in one statement: the good motors in front, in their old order, and behind them, in
      directory order, exactly the entries that are the first usable ones of a new name; entry `k`
      comes behind as many of them as there are before it. */
  lemma RescanOrder(motors: seq<Motor>, w: World)
    ensures var kept, after := Survivors(motors, w.good), Rescanned(motors, w);
            && |kept| <= |after| && after[..|kept|] == kept
            && |after| == |kept| + |set k | 0 <= k < |w.directory| && FirstUsable(motors, w, k)|
            && forall k :: 0 <= k < |w.directory| && FirstUsable(motors, w, k) ==>
                 var place := |kept| + |set j | 0 <= j < k && FirstUsable(motors, w, j)|;
                 place < |after| && after[place] == w.directory[k].motor
  {
    var kept, dir := Survivors(motors, w.good), w.directory;
    hide FirstUsable, Wins, Winners, Survivors;
    RescannedAs(motors, w);
    forall k | 0 <= k < |dir| ensures FirstUsable(motors, w, k) <==> Wins(kept, dir, k) {
      FirstUsableWins(motors, w, k);
    }
    forall k | 0 <= k <= |dir|
      ensures |Winners(kept, dir, k)| == |set j | 0 <= j < k && FirstUsable(motors, w, j)|
    {
      WinnersCount(kept, dir, k);
      assert (set j | 0 <= j < k && FirstUsable(motors, w, j)) == set j | 0 <= j < k && Wins(kept, dir, j);
    }
    forall k | 0 <= k < |dir| && FirstUsable(motors, w, k)
      ensures var place := |kept| + |set j | 0 <= j < k && FirstUsable(motors, w, j)|;
              place < |Rescanned(motors, w)| && Rescanned(motors, w)[place] == dir[k].motor
    {
      WinnersKeepOrder(kept, dir, |dir|, k);
    }
  }

  lemma {:induction false} SurvivorsDistinct(motors: seq<Motor>, good: Motor -> bool)
    requires Distinct(motors)
    ensures Distinct(Survivors(motors, good))
  {
    if motors == [] {
    } else {
      var n := |motors| - 1;
      SurvivorsDistinct(motors[..n], good);
      var before := Survivors(motors[..n], good);
      forall i | 0 <= i < |before| ensures before[i].name != motors[n].name {
        SurvivorsAreGood(motors[..n], good, before[i]);
      }
    }
  }

  lemma {:induction false} WinnersDistinct(kept: seq<Motor>, dir: seq<Entry>, n: nat)
    requires n <= |dir| && Distinct(kept)
    ensures Distinct(kept + Winners(kept, dir, n))
  {
    if n == 0 {
      assert kept + [] == kept;
    } else {
      WinnersDistinct(kept, dir, n - 1);
      var before := kept + Winners(kept, dir, n - 1);
      TakenIff(kept, dir, n - 1, dir[n - 1].motor.name);
      if Wins(kept, dir, n - 1) {
        assert kept + Winners(kept, dir, n) == before + [dir[n - 1].motor];
        assert forall m <- before :: m.name != dir[n - 1].motor.name;
      } else {
        assert kept + Winners(kept, dir, n) == before;
      }
    }
  }

  function Registry(worlds: seq<World>): seq<Motor> {
    if worlds == [] then [] else Rescanned(Registry(worlds[..|worlds| - 1]), worlds[|worlds| - 1])
  }

  /** After any run of rescans no two motors share a name. */
  lemma {:induction false} NamesDistinct(worlds: seq<World>)
    ensures Distinct(Registry(worlds))
  {
    if worlds == [] {
    } else {
      var init, w := worlds[..|worlds| - 1], worlds[|worlds| - 1];
      NamesDistinct(init);
      SurvivorsDistinct(Registry(init), w.good);
      WinnersDistinct(Survivors(Registry(init), w.good), w.directory, |w.directory|);
    }
  }

  lemma {:induction false} AllSurvive(motors: seq<Motor>, good: Motor -> bool)
    requires forall m <- motors :: good(m)
    ensures Survivors(motors, good) == motors
  {
    if motors == [] {
    } else {
      var n := |motors| - 1;
      assert motors[n] in motors;
      AllSurvive(motors[..n], good);
      assert motors == motors[..n] + [motors[n]];
    }
  }

  lemma {:induction false} NobodyWins(kept: seq<Motor>, dir: seq<Entry>, n: nat)
    requires n <= |dir| && forall j :: 0 <= j < n && Usable(dir[j]) ==> HasName(kept, dir[j].motor.name)
    ensures Winners(kept, dir, n) == []
  {
    if n == 0 {
    } else {
      NobodyWins(kept, dir, n - 1);
    }
  }

  /** Behind a rescan every usable name in the directory is registered. */
  lemma RescanCovers(motors: seq<Motor>, w: World, j: nat)
    requires j < |w.directory| && Usable(w.directory[j])
    ensures HasName(Rescanned(motors, w), w.directory[j].motor.name)
  {
    var kept := Survivors(motors, w.good);
    TakenIff(kept, w.directory, |w.directory|, w.directory[j].motor.name);
  }

  /** The same device files with the same motors behind them, opened again. */
  predicate SameFiles(dir: seq<Entry>, again: seq<Entry>) {
    && |again| == |dir|
    && forall i :: 0 <= i < |dir| ==>
         again[i].opens == dir[i].opens && again[i].resets == dir[i].resets && again[i].motor.name == dir[i].motor.name
  }

  /** As long as the device files are the same and every motor is good, a second rescan changes
      nothing: the motors that are there stay, and everything that was opened again is dropped. */
  lemma RescanIdempotent(motors: seq<Motor>, w: World, v: World)
    requires SameFiles(w.directory, v.directory) && forall m <- Rescanned(motors, w) :: v.good(m)
    ensures Rescanned(Rescanned(motors, w), v) == Rescanned(motors, w)
  {
    hide Rescanned, HasName;
    var once := Rescanned(motors, w);
    AllSurvive(once, v.good);
    forall j | 0 <= j < |v.directory| && Usable(v.directory[j]) ensures HasName(once, v.directory[j].motor.name) {
      RescanCovers(motors, w, j);
    }
    NobodyWins(once, v.directory, |v.directory|);
    RescannedAs(once, v);
    assert once + [] == once;
  }

  lemma RescannedAs(motors: seq<Motor>, w: World)
    ensures var kept := Survivors(motors, w.good);
            Rescanned(motors, w) == kept + Winners(kept, w.directory, |w.directory|)
  {
  }
}
