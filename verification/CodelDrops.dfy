/** The pace of CoDel's drops (section 5 of RFC 8289), told from the looks and the drops themselves. */
module CodelDrops {
  import opened Seq32
  import opened FrameQueue

  /** Every look from some earlier one up to look `m` found a long wait, and that for a full interval. */
  predicate Standing(cf: Conf, obs: seq<Obs>, m: nat)
    requires m < |obs|
  {
    && Above(cf, obs[m])
    && (var s := StreakStart(cf, obs[..m + 1]); s < m && obs[m].now >= obs[s].now + cf.interval)
  }

  /** So it was at every look after look `i` up to look `k`: one spell of dropping. */
  predicate OneSpell(cf: Conf, obs: seq<Obs>, i: nat, k: int)
    requires k < |obs|
  {
    forall m: nat :: i < m <= k ==> Standing(cf, obs, m)
  }

  /** The looks before look `k` at which a frame was dropped. */
  function Drops(cf: Conf, obs: seq<Obs>, k: nat): (ds: seq<nat>)
    requires k <= |obs|
    ensures forall j: nat :: j in ds <==> j < k && Dropped(cf, obs, j)
    ensures ds != [] ==> forall j: nat :: ds[|ds| - 1] < j < k ==> !Dropped(cf, obs, j)
  {
    if k == 0 then []
    else
      var ds := Drops(cf, obs, k - 1);
      if Dropped(cf, obs, k - 1) then ds + [k - 1] else ds
  }

  predicate Looks(obs: seq<Obs>, ds: seq<nat>) {
    forall q :: 0 <= q < |ds| ==> ds[q] < |obs| && obs[ds[q]].Seen?
  }

  /** The count after the drops `ds`: one more within a spell; a new spell goes on two below the last one's
      count if it comes less than 16 intervals after that one's next drop was due, else begins at one. */
  function Count(cf: Conf, obs: seq<Obs>, ds: seq<nat>): (n: int)
    requires ds != [] && Looks(obs, ds)
    ensures n > 0
    decreases |ds|, 0
  {
    var before, j := ds[..|ds| - 1], ds[|ds| - 1];
    if before == [] then 1
    else
      var n := Count(cf, obs, before);
      if OneSpell(cf, obs, before[|before| - 1], j) then n + 1
      else if n > 2 && obs[j].now - Due(cf, obs, before) < 16 * cf.interval then n - 2 else 1
  }

  /** When the drop after the drops `ds` is due: the control law's time after the last one was due, or after
      the first one of a spell was made. */
  function Due(cf: Conf, obs: seq<Obs>, ds: seq<nat>): int
    requires ds != [] && Looks(obs, ds)
    decreases |ds|, 1
  {
    var before, j := ds[..|ds| - 1], ds[|ds| - 1];
    var n := Count(cf, obs, ds);
    if before != [] && OneSpell(cf, obs, before[|before| - 1], j) then Due(cf, obs, before) + cf.control(n)
    else obs[j].now + cf.control(n)
  }

  lemma DropsLook(cf: Conf, obs: seq<Obs>, k: nat)
    requires k <= |obs|
    ensures Looks(obs, Drops(cf, obs, k))
  {
    var ds := Drops(cf, obs, k);
    forall q | 0 <= q < |ds| ensures ds[q] < |obs| && obs[ds[q]].Seen? { assert ds[q] in ds; }
  }

  /** Whether a frame is dropped is a matter of its own look alone once the streak is known. */
  lemma JudgeStands(cf: Conf, obs: seq<Obs>, k: nat)
    requires k < |obs| && obs[k].Seen?
    ensures Judge(cf, After(cf, obs[..k]), obs[k]).1 <==> Standing(cf, obs, k)
  {
    var upto := obs[..k + 1];
    assert upto[..k] == obs[..k];
    FirstAboveIsStreak(cf, obs[..k]);
    if Above(cf, obs[k]) && k > 0 && Above(cf, obs[k - 1]) {
      assert obs[..k][|obs[..k]| - 1] == obs[k - 1];
      assert StreakStart(cf, upto) == StreakStart(cf, obs[..k]);
    }
  }

  /** What is remembered is what the drops say. */
  ghost predicate Remembers(cf: Conf, obs: seq<Obs>, k: nat)
    requires k <= |obs|
  {
    var ds, c := Drops(cf, obs, k), After(cf, obs[..k]);
    DropsLook(cf, obs, k);
    if ds == [] then c.count == 0 && !c.dropping
    else
      && c.count == Count(cf, obs, ds) && c.dropNext == Due(cf, obs, ds)
      && (c.dropping <==> OneSpell(cf, obs, ds[|ds| - 1], k - 1))
  }

  lemma AfterNext(cf: Conf, obs: seq<Obs>, k: nat)
    requires k < |obs|
    ensures After(cf, obs[..k + 1]) ==
      var c := After(cf, obs[..k]);
      if obs[k].Seen? then ShouldDrop(cf, c, obs[k]).0 else c.(firstAbove := None, dropping := false)
  {
    assert obs[..k + 1][..k] == obs[..k];
  }

  lemma StandingIsSeen(cf: Conf, obs: seq<Obs>, k: nat)
    requires k < |obs|
    ensures Standing(cf, obs, k) ==> obs[k].Seen?
  {
  }

  lemma SpellNext(cf: Conf, obs: seq<Obs>, i: nat, k: nat)
    requires i < k < |obs|
    ensures OneSpell(cf, obs, i, k) <==> OneSpell(cf, obs, i, k - 1) && Standing(cf, obs, k)
  {
  }

  lemma NewSpell(cf: Conf, obs: seq<Obs>, k: nat)
    requires k < |obs|
    ensures OneSpell(cf, obs, k, k)
  {
  }

  lemma CountNext(cf: Conf, obs: seq<Obs>, ds: seq<nat>, j: nat)
    requires Looks(obs, ds) && j < |obs| && obs[j].Seen?
    ensures Looks(obs, ds + [j])
    ensures ds == [] ==> Count(cf, obs, ds + [j]) == 1 && Due(cf, obs, ds + [j]) == obs[j].now + cf.control(1)
    ensures ds != [] && OneSpell(cf, obs, ds[|ds| - 1], j) ==>
      && Count(cf, obs, ds + [j]) == Count(cf, obs, ds) + 1
      && Due(cf, obs, ds + [j]) == Due(cf, obs, ds) + cf.control(Count(cf, obs, ds) + 1)
    ensures ds != [] && !OneSpell(cf, obs, ds[|ds| - 1], j) ==>
      var n := Count(cf, obs, ds);
      && Count(cf, obs, ds + [j]) == (if n > 2 && obs[j].now - Due(cf, obs, ds) < 16 * cf.interval then n - 2 else 1)
      && Due(cf, obs, ds + [j]) == obs[j].now + cf.control(Count(cf, obs, ds + [j]))
  {
    hide OneSpell;
    assert (ds + [j])[..|ds|] == ds;
  }

  /** A look that is not a frame's, and one that is, in the terms of the drops. */
  lemma LookMeans(cf: Conf, c: Codel, o: Obs)
    requires o.Seen?
    ensures var (d, dropped), ok := ShouldDrop(cf, c, o), Judge(cf, c, o).1;
      && (dropped <==> ok && (c.dropping ==> o.now >= c.dropNext))
      && (d.dropping <==> ok)
      && (!dropped ==> d.count == c.count && d.dropNext == c.dropNext)
      && (dropped && c.dropping ==> d.count == c.count + 1 && d.dropNext == c.dropNext + cf.control(c.count + 1))
      && (dropped && !c.dropping ==>
            && d.count == (if c.count > 2 && o.now - c.dropNext < 16 * cf.interval then c.count - 2 else 1)
            && d.dropNext == o.now + cf.control(d.count))
  {
  }

  lemma DropsNext(cf: Conf, obs: seq<Obs>, k: nat)
    requires k < |obs|
    ensures Drops(cf, obs, k + 1) == if Dropped(cf, obs, k) then Drops(cf, obs, k) + [k] else Drops(cf, obs, k)
    ensures Drops(cf, obs, k) != [] ==> Drops(cf, obs, k)[|Drops(cf, obs, k)| - 1] < k
    ensures Looks(obs, Drops(cf, obs, k)) && Looks(obs, Drops(cf, obs, k + 1))
  {
    DropsLook(cf, obs, k);
    DropsLook(cf, obs, k + 1);
    var ds := Drops(cf, obs, k);
    if ds != [] { assert ds[|ds| - 1] in ds; }
    hide Dropped;
  }

  lemma RemembersMeans(cf: Conf, obs: seq<Obs>, k: nat)
    requires k <= |obs| && Looks(obs, Drops(cf, obs, k))
    ensures Remembers(cf, obs, k) <==>
      var ds, c := Drops(cf, obs, k), After(cf, obs[..k]);
      if ds == [] then c.count == 0 && !c.dropping
      else
        && c.count == Count(cf, obs, ds) && c.dropNext == Due(cf, obs, ds)
        && (c.dropping <==> OneSpell(cf, obs, ds[|ds| - 1], k - 1))
  {
    hide Drops, After, Count, Due, OneSpell;
  }

  lemma DroppedMeans(cf: Conf, obs: seq<Obs>, k: nat)
    requires k < |obs|
    ensures Dropped(cf, obs, k) <==> obs[k].Seen? && ShouldDrop(cf, After(cf, obs[..k]), obs[k]).1
  {
  }

  lemma NextRemembers(cf: Conf, obs: seq<Obs>, k: nat)
    requires k < |obs| && Remembers(cf, obs, k)
    ensures Remembers(cf, obs, k + 1)
  {
    hide *;
    var ds, c := Drops(cf, obs, k), After(cf, obs[..k]);
    DropsNext(cf, obs, k);
    RemembersMeans(cf, obs, k);
    RemembersMeans(cf, obs, k + 1);
    AfterNext(cf, obs, k);
    StandingIsSeen(cf, obs, k);
    DroppedMeans(cf, obs, k);
    NewSpell(cf, obs, k);
    if ds != [] { SpellNext(cf, obs, ds[|ds| - 1], k); }
    if obs[k].Seen? {
      JudgeStands(cf, obs, k);
      LookMeans(cf, c, obs[k]);
      if Dropped(cf, obs, k) { CountNext(cf, obs, ds, k); }
    }
  }

  lemma {:induction false} AlwaysRemembers(cf: Conf, obs: seq<Obs>, k: nat)
    requires k <= |obs|
    ensures Remembers(cf, obs, k)
  {
    if k > 0 {
      hide Remembers;
      AlwaysRemembers(cf, obs, k - 1);
      NextRemembers(cf, obs, k - 1);
    }
  }

  /** When a frame is dropped, in every history of looks: when long waits have stood for an interval and,
      if they have since the last drop, the next drop is due. */
  lemma DropsWhenDue(cf: Conf, obs: seq<Obs>, k: nat)
    requires k < |obs|
    ensures Looks(obs, Drops(cf, obs, k))
    ensures var ds := Drops(cf, obs, k);
      Dropped(cf, obs, k) <==>
        && Standing(cf, obs, k)
        && (ds != [] && OneSpell(cf, obs, ds[|ds| - 1], k) ==> obs[k].now >= Due(cf, obs, ds))
  {
    hide *;
    var ds, c := Drops(cf, obs, k), After(cf, obs[..k]);
    AlwaysRemembers(cf, obs, k);
    DropsNext(cf, obs, k);
    RemembersMeans(cf, obs, k);
    StandingIsSeen(cf, obs, k);
    DroppedMeans(cf, obs, k);
    if ds != [] { SpellNext(cf, obs, ds[|ds| - 1], k); }
    if obs[k].Seen? {
      JudgeStands(cf, obs, k);
      LookMeans(cf, c, obs[k]);
    }
  }

  /** Within a spell the drop after the one at look `i` comes exactly at the first look at or after the time
      it is due; from there the next one is due the control law's time for one more later. */
  lemma Paced(cf: Conf, obs: seq<Obs>, i: nat, k: nat)
    requires i < k < |obs| && Dropped(cf, obs, i) && OneSpell(cf, obs, i, k)
    requires forall j: nat :: i < j < k ==> !Dropped(cf, obs, j)
    ensures Looks(obs, Drops(cf, obs, i + 1)) && Drops(cf, obs, i + 1) != []
    ensures obs[k].Seen?
    ensures Dropped(cf, obs, k) <==> obs[k].now >= Due(cf, obs, Drops(cf, obs, i + 1))
    ensures Dropped(cf, obs, k) ==>
      var ds, ds' := Drops(cf, obs, i + 1), Drops(cf, obs, k + 1);
      && Looks(obs, ds') && ds' != [] && Count(cf, obs, ds') == Count(cf, obs, ds) + 1
      && Due(cf, obs, ds') == Due(cf, obs, ds) + cf.control(Count(cf, obs, ds) + 1)
  {
    hide *;
    SameDrops(cf, obs, i, k);
    DropsNext(cf, obs, i);
    DropsNext(cf, obs, k);
    DropsWhenDue(cf, obs, k);
    SpellStands(cf, obs, i, k);
    StandingIsSeen(cf, obs, k);
    if Dropped(cf, obs, k) { CountNext(cf, obs, Drops(cf, obs, i + 1), k); }
  }

  lemma SpellStands(cf: Conf, obs: seq<Obs>, i: nat, k: nat)
    requires i < k < |obs| && OneSpell(cf, obs, i, k)
    ensures Standing(cf, obs, k)
  {
  }

  lemma {:induction false} SameDrops(cf: Conf, obs: seq<Obs>, i: nat, k: nat)
    requires i < k <= |obs| && forall j: nat :: i < j < k ==> !Dropped(cf, obs, j)
    ensures Drops(cf, obs, k) == Drops(cf, obs, i + 1)
    decreases k
  {
    if i + 1 < k { SameDrops(cf, obs, i, k - 1); }
  }

  /** The first look at which long waits have stood for an interval drops, unless they have since the last
      drop. */
  lemma SpellBegins(cf: Conf, obs: seq<Obs>, i: nat, k: nat)
    requires i < k < |obs| && Dropped(cf, obs, i) && !OneSpell(cf, obs, i, k)
    requires forall j: nat :: i < j < k ==> !Dropped(cf, obs, j)
    ensures Dropped(cf, obs, k) <==> Standing(cf, obs, k)
  {
    hide *;
    SameDrops(cf, obs, i, k);
    DropsNext(cf, obs, i);
    DropsWhenDue(cf, obs, k);
  }

  /** No frame is dropped that waited less than the target or left fewer than two pieces' bytes behind it. */
  lemma ShortWaitsAreKept(cf: Conf, obs: seq<Obs>, k: nat)
    requires k < |obs| && Dropped(cf, obs, k)
    ensures obs[k].Seen? && obs[k].sojourn >= cf.target && obs[k].left >= 2 * cf.piece
  {
    hide Drops, Dropped;
    DropsWhenDue(cf, obs, k);
  }

  /** The first drop of all comes at the latest at the look that ends an interval of long waits. */
  lemma LongWaitsAreDropped(cf: Conf, obs: seq<Obs>, s: nat, k: nat)
    requires s < k < |obs| && forall j :: 0 <= j < k ==> !Dropped(cf, obs, j)
    requires forall j :: s <= j <= k ==> obs[j].Seen? && obs[j].sojourn >= cf.target && obs[j].left >= 2 * cf.piece
    requires forall i, j :: 0 <= i < j <= k && obs[i].Seen? && obs[j].Seen? ==> obs[i].now <= obs[j].now
    requires obs[k].now >= obs[s].now + cf.interval
    ensures Dropped(cf, obs, k)
  {
    DropsWhenDue(cf, obs, k);
    var upto := obs[..k + 1];
    var first := StreakStart(cf, upto);
    hide Dropped, Drops, StreakStart;
    assert forall j :: s <= j <= k ==> Above(cf, upto[j]);
    assert upto[first] == obs[first] && Above(cf, upto[first]);
    NoDrops(cf, obs, k);
  }

  lemma {:induction false} NoDrops(cf: Conf, obs: seq<Obs>, k: nat)
    requires k <= |obs| && forall j :: 0 <= j < k ==> !Dropped(cf, obs, j)
    ensures Drops(cf, obs, k) == []
  {
    if k > 0 { NoDrops(cf, obs, k - 1); }
  }
}
