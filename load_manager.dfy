/** The dispatcher's round-robin balancer (`LoadManager`): a list of satellite
    names that only grows, and the index of the satellite chosen last. */
module LoadManagement {
  import opened Comm

  const NO_SATELLITES := "No satellites available."

  /** One call of `nextSatellite` on the list `names` with cursor `cursor`: what the
      call ends in, and the cursor it leaves behind. */
  function Step(names: seq<string>, cursor: int): (r: (Outcome<string>, int))
    requires cursor >= -1
    ensures r.1 >= -1
    ensures r.0.Threw? <==> |names| == 0
    ensures |names| == 0 ==> r == (Threw(PlainException(NO_SATELLITES)), cursor)
    ensures |names| > 0 ==> 0 <= r.1 < |names| && r.0 == Returned(names[r.1])
  {
    if |names| == 0 then
      (Threw(PlainException(NO_SATELLITES)), cursor)
    else
      // cursor + 1 >= 0, so Java's truncating % and Dafny's Euclidean % agree here
      var index := (cursor + 1) % |names|;
      (Returned(names[index]), index)
  }

  /** The names returned by `k` successive calls of `nextSatellite` while the list
      stays `names`, starting from cursor `cursor`. */
  function Run(names: seq<string>, cursor: int, k: nat): (r: seq<string>)
    requires cursor >= -1
    ensures |r| == (if |names| == 0 then 0 else k)
    ensures forall i :: 0 <= i < |r| ==> r[i] in names
    decreases k
  {
    if k == 0 || |names| == 0 then []
    else
      var (picked, next) := Step(names, cursor);
      [picked.value] + Run(names, next, k - 1)
  }

  lemma ModAddModulus(x: int, n: int)
    requires n > 0
    ensures (x + n) % n == x % n
  {
    var q1, r1 := x / n, x % n;
    var q2, r2 := (x + n) / n, (x + n) % n;
    assert x == q1 * n + r1;
    assert x + n == q2 * n + r2;
    MultipleBound(q2 - q1 - 1, n);
  }

  lemma MultipleBound(d: int, n: int)
    requires n > 0
    ensures d >= 1 ==> d * n >= n
    ensures d <= -1 ==> d * n <= -n
  {
  }

  lemma {:induction false} ModShift(a: int, j: int, n: int)
    requires a >= 0 && n > 0
    ensures (a % n + j) % n == (a + j) % n
    decreases a
  {
    if a < n {
      ModSmall(a, n);
    } else {
      ModAddModulus(a - n, n);
      ModAddModulus(a - n + j, n);
      ModShift(a - n, j, n);
      assert a % n == (a - n) % n && (a + j) % n == (a - n + j) % n;
    }
  }

  /** From any cursor, the `j`-th of `k` successive calls returns the name at
      position (cursor + 1 + j) mod |names|. */
  lemma {:induction false} RunCycle(names: seq<string>, cursor: int, k: nat)
    requires cursor >= -1 && |names| > 0
    ensures |Run(names, cursor, k)| == k
    ensures forall j :: 0 <= j < k ==> Run(names, cursor, k)[j] == names[(cursor + 1 + j) % |names|]
    decreases k
  {
    if k > 0 {
      var n := |names|;
      var next := (cursor + 1) % n;
      var rest := Run(names, next, k - 1);
      RunCycle(names, next, k - 1);
      assert Run(names, cursor, k) == [names[next]] + rest;
      forall j | 1 <= j < k
        ensures Run(names, cursor, k)[j] == names[(cursor + 1 + j) % n]
      {
        assert rest[j - 1] == names[(next + 1 + (j - 1)) % n];
        ModShift(cursor + 1, j, n);
      }
    }
  }

  /** A fresh balancer whose list is [A, B, C] answers A, B, C, A, B, C, ... */
  lemma RoundRobinFromStart(names: seq<string>, k: nat)
    requires |names| > 0
    ensures |Run(names, -1, k)| == k
    ensures forall j :: 0 <= j < k ==> Run(names, -1, k)[j] == names[j % |names|]
  {
    RunCycle(names, -1, k);
  }

  /** Any |names| successive calls return every entry of the list exactly as often as
      it was added: duplicates are kept, and each copy gets its own turn. */
  lemma FullCycleFair(names: seq<string>, cursor: int)
    requires cursor >= -1 && |names| > 0
    ensures multiset(Run(names, cursor, |names|)) == multiset(names)
  {
    var n := |names|;
    var s := (cursor + 1) % n;
    RunCycle(names, cursor, n);
    var rotated := names[s..] + names[..s];
    forall j | 0 <= j < n
      ensures Run(names, cursor, n)[j] == rotated[j]
    {
      RotatedIndex(cursor + 1, j, n);
    }
    assert Run(names, cursor, n) == rotated;
    assert names == names[..s] + names[s..];
  }

  lemma RotatedIndex(a: int, j: int, n: int)
    requires a >= 0 && 0 <= j < n
    ensures (a + j) % n == if j < n - a % n then a % n + j else j - (n - a % n)
  {
    ModShift(a, j, n);
    var s := a % n;
    if j < n - s {
      ModSmall(s + j, n);
    } else {
      ModAddModulus(j - (n - s), n);
      ModSmall(j - (n - s), n);
    }
  }

  lemma ModSmall(x: int, n: int)
    requires 0 <= x < n
    ensures x % n == x
  {
  }

  /** The state behind the Java class's two static fields. Every `LoadManager`
      instance shares it, so one object stands for all of them. */
  class LoadManager {
    var satellites: seq<string>
    var lastSatelliteIndex: int

    ghost predicate Valid()
      reads this
    {
      lastSatelliteIndex >= -1
    }

    /** Class initialisation (cursor -1) followed by the first `new LoadManager()`. */
    constructor ()
      ensures Valid()
      ensures satellites == [] && lastSatelliteIndex == -1
    {
      satellites := [];
      lastSatelliteIndex := -1;
    }

    /** A later `new LoadManager()`: the list is replaced by an empty one, but the
        static cursor keeps its value. */
    method Reinitialize()
      requires Valid()
      modifies this
      ensures Valid()
      ensures satellites == [] && lastSatelliteIndex == old(lastSatelliteIndex)
    {
      satellites := [];
    }

    /** `satelliteAdded`: appends the name, duplicates included; the cursor stays. */
    method SatelliteAdded(satelliteName: string)
      requires Valid()
      modifies this
      ensures Valid()
      ensures satellites == old(satellites) + [satelliteName]
      ensures lastSatelliteIndex == old(lastSatelliteIndex)
    {
      satellites := satellites + [satelliteName];
    }

    /** `nextSatellite`: advances the cursor round robin and returns the name under it,
        or throws "No satellites available." with the cursor untouched. */
    method NextSatellite() returns (r: Outcome<string>)
      requires Valid()
      modifies this
      ensures Valid()
      ensures satellites == old(satellites)
      ensures (r, lastSatelliteIndex) == Step(old(satellites), old(lastSatelliteIndex))
      ensures |satellites| == 0 ==>
                r == Threw(PlainException(NO_SATELLITES)) && lastSatelliteIndex == old(lastSatelliteIndex)
      ensures |satellites| > 0 ==>
                lastSatelliteIndex == (old(lastSatelliteIndex) + 1) % |satellites| &&
                0 <= lastSatelliteIndex < |satellites| &&
                r == Returned(satellites[lastSatelliteIndex])
    {
      var numberSatellites := |satellites|;
      if numberSatellites == 0 {
        return Threw(PlainException(NO_SATELLITES));
      }
      lastSatelliteIndex := (lastSatelliteIndex + 1) % numberSatellites;
      r := Returned(satellites[lastSatelliteIndex]);
    }
  }
}
