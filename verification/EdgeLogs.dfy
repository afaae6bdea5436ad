/**
 The parts of all rings in the order in which they are split off. This order decides what the table of
 edges holds and how the edges are listed.
 */
module EdgeLogs {
  import opened Planar
  import opened CoverageRings
  import opened CoverageSections
  import opened CoverageKeys
  import opened RingSplits
  import opened EdgeTables

  // A part of a ring, under its key.
  datatype Use = Use(key: Key, pts: seq<Point>, free: bool)

  // The table when these parts have come one after another.
  function Filled(log: seq<Use>): map<Key, Record> {
    if log == [] then map[]
    else
      var u := log[|log| - 1];
      Added(Filled(log[..|log| - 1]), u.key, u.pts, u.free)
  }

  // The keys in the order in which they come up first.
  function FirstSeen(log: seq<Use>): seq<Key> {
    if log == [] then []
    else
      var seen, k := FirstSeen(log[..|log| - 1]), log[|log| - 1].key;
      if k in seen then seen else seen + [k]
  }

  lemma FilledMore(log: seq<Use>, u: Use)
    ensures Filled(log + [u]) == Added(Filled(log), u.key, u.pts, u.free)
    ensures FirstSeen(log + [u]) == if u.key in FirstSeen(log) then FirstSeen(log) else FirstSeen(log) + [u.key]
  {
    assert (log + [u])[..|log|] == log;
    hide Added;
  }

  // The keys listed are those of the table, each once.
  ghost predicate Enumerates(seen: seq<Key>, table: map<Key, Record>) {
    && (forall k :: k in seen <==> k in table) && |seen| == |table|
    && forall i, j :: 0 <= i < j < |seen| ==> seen[i] != seen[j]
  }

  lemma EnumeratesMore(seen: seq<Key>, table: map<Key, Record>, k: Key, rec: Record)
    requires Enumerates(seen, table)
    ensures Enumerates(if k in seen then seen else seen + [k], table[k := rec])
  {
    if k !in seen {
      var more := seen + [k];
      forall k' ensures k' in more <==> k' in table[k := rec] {}
      assert |table[k := rec]| == |table| + 1;
    } else {
      assert table[k := rec].Keys == table.Keys;
      assert |table[k := rec].Keys| == |table.Keys|;
    }
  }

  lemma {:induction false} SeenAre(log: seq<Use>)
    ensures Enumerates(FirstSeen(log), Filled(log))
  {
    if log != [] {
      var n := |log| - 1;
      SeenAre(log[..n]);
      hide Enumerates;
      var table, u := Filled(log[..n]), log[n];
      EnumeratesMore(FirstSeen(log[..n]), table, u.key, Added(table, u.key, u.pts, u.free)[u.key]);
    }
  }

  lemma {:induction false} UseIsSeen(log: seq<Use>, i: nat)
    requires i < |log|
    ensures log[i].key in FirstSeen(log)
  {
    if i < |log| - 1 { UseIsSeen(log[..|log| - 1], i); }
  }

  // Part m is the first under its key.
  predicate IsFirst(log: seq<Use>, m: nat) {
    m < |log| && forall i :: 0 <= i < m ==> log[i].key != log[m].key
  }

  /** What is recorded under a key is the first part that came under it. */
  lemma {:induction false} FirstIsKept(log: seq<Use>, m: nat)
    requires IsFirst(log, m)
    ensures var k := log[m].key;
      k in Filled(log) && Filled(log)[k].pts == log[m].pts && Filled(log)[k].free == log[m].free
  {
    var n := |log| - 1;
    SeenAre(log[..n]);
    if m < n {
      FirstIsKept(log[..n], m);
    } else {
      NotYetSeen(log[..n], log[m].key);
    }
  }

  lemma {:induction false} NotYetSeen(log: seq<Use>, k: Key)
    requires forall i :: 0 <= i < |log| ==> log[i].key != k
    ensures k !in FirstSeen(log) && k !in Filled(log)
  {
    SeenAre(log);
    if log != [] { NotYetSeen(log[..|log| - 1], k); }
  }

  /** The keys are listed in the order of these first parts. */
  lemma {:induction false} SeenInOrder(log: seq<Use>, m: nat, n: nat) returns (i: nat, j: nat)
    requires IsFirst(log, m) && IsFirst(log, n) && m < n
    ensures i < j < |FirstSeen(log)| && FirstSeen(log)[i] == log[m].key && FirstSeen(log)[j] == log[n].key
  {
    hide Filled;
    hide Enumerates;
    var l := |log| - 1;
    if n < l {
      i, j := SeenInOrder(log[..l], m, n);
    } else {
      UseIsSeen(log[..l], m);
      i :| 0 <= i < |FirstSeen(log[..l])| && FirstSeen(log[..l])[i] == log[m].key;
      NotYetSeen(log[..l], log[n].key);
      j := |FirstSeen(log[..l])|;
    }
  }

  // ---- The parts of the rings of a coverage

  // The first parts of ring i have these keys.
  ghost predicate Parted(c: Coverage, i: nat, cuts: seq<nat>, keys: seq<Key>) {
    Ready(c) && i < |c.rings| && CutsOf(c.rings[i], Nodes(c), cuts) && |keys| <= |Pieces(c.rings[i], cuts)|
  }

  ghost function UsesOf(c: Coverage, i: nat, cuts: seq<nat>, keys: seq<Key>): (uses: seq<Use>)
    requires Parted(c, i, cuts, keys)
    ensures |uses| == |keys|
  {
    seq(|keys|, m requires 0 <= m < |keys| =>
      Use(keys[m], Pieces(c.rings[i], cuts)[m], NodeFree(c.rings[i], Nodes(c))))
  }

  ghost predicate AllParted(c: Coverage, cuts: seq<seq<nat>>, keys: seq<seq<Key>>) {
    |cuts| == |keys| && forall i {:trigger cuts[i]} :: 0 <= i < |cuts| ==> Parted(c, i, cuts[i], keys[i])
  }

  // The parts of all rings, ring by ring.
  ghost function AllUses(c: Coverage, cuts: seq<seq<nat>>, keys: seq<seq<Key>>): seq<Use>
    requires AllParted(c, cuts, keys)
  {
    if cuts == [] then []
    else
      var n := |cuts| - 1;
      assert AllParted(c, cuts[..n], keys[..n]);
      AllUses(c, cuts[..n], keys[..n]) + UsesOf(c, n, cuts[n], keys[n])
  }

  lemma AllUsesMore(c: Coverage, allCuts: seq<seq<nat>>, allKeys: seq<seq<Key>>, cuts: seq<nat>, keys: seq<Key>)
    requires AllParted(c, allCuts, allKeys) && Parted(c, |allCuts|, cuts, keys)
    ensures AllParted(c, allCuts + [cuts], allKeys + [keys])
    ensures AllUses(c, allCuts + [cuts], allKeys + [keys]) ==
            AllUses(c, allCuts, allKeys) + UsesOf(c, |allCuts|, cuts, keys)
  {
    hide Parted;
    var cuts', keys' := allCuts + [cuts], allKeys + [keys];
    forall i | 0 <= i < |cuts'| ensures Parted(c, i, cuts'[i], keys'[i]) {
      if i < |allCuts| { assert Parted(c, i, allCuts[i], allKeys[i]); }
    }
    assert cuts'[..|allCuts|] == allCuts && keys'[..|allCuts|] == allKeys;
  }

  lemma NoUses(c: Coverage, i: nat, cuts: seq<nat>)
    requires Parted(c, i, cuts, [])
    ensures UsesOf(c, i, cuts, []) == []
  {
  }

  lemma UsesMore(c: Coverage, i: nat, cuts: seq<nat>, keys: seq<Key>, q: seq<Point>, free: bool, k: Key)
    requires Parted(c, i, cuts, keys) && NextPart(c, i, cuts, |keys|, q, free)
    ensures Parted(c, i, cuts, keys + [k])
    ensures UsesOf(c, i, cuts, keys + [k]) == UsesOf(c, i, cuts, keys) + [Use(k, q, free)]
  {
    hide Pieces;
    hide NodeFree;
    hide Ready;
  }

  lemma ProgressParted(c: Coverage, n: nat, cuts: seq<nat>, keys: seq<Key>, table: map<Key, Record>)
    requires InProgress(c, n, cuts, keys, table)
    ensures Parted(c, n, cuts, keys)
  {
  }
}
