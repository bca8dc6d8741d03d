/**
 * The security check of the renderer (src/app.js): runSecurityCheck sorts the entries into
 * weak, strong, reused and leaked, and updateSecurityUI turns those lists into a score, a
 * status band and a prioritised list of issues.
 */
module Security {
  import opened Wrappers
  import Seqs
  import Strength
  import opened Renderer

  datatype WeakItem = WeakItem(entry: Entry, reason: string)
  datatype ReuseItem = ReuseItem(entry: Entry, count: nat)
  datatype LeakItem = LeakItem(entry: Entry, count: nat)
  datatype Results = Results(weak: seq<WeakItem>, reused: seq<ReuseItem>, leaked: seq<LeakItem>, strong: seq<Entry>)

  /**
   * The specifications below take the password analysis as a parameter; the check itself
   * runs them with analyzePasswordStrength (Strength.Assess).
   */
  type Analysis = string -> Strength.Assessment

  predicate IsWeak(analyze: Analysis, e: Entry) { analyze(e.password).score <= 2 }
  predicate IsStrong(analyze: Analysis, e: Entry) { analyze(e.password).score >= 5 }

  /** No id occurs twice. */
  predicate NoDup(ids: seq<string>) {
    forall a, b :: 0 <= a < b < |ids| ==> ids[a] != ids[b]
  }

  function EntryIds(es: seq<Entry>): (r: seq<string>)
    ensures |r| == |es| && forall i :: 0 <= i < |es| ==> r[i] == es[i].id
  {
    seq(|es|, i requires 0 <= i < |es| => es[i].id)
  }

  function WeakIds(ws: seq<WeakItem>): (r: seq<string>)
    ensures |r| == |ws| && forall i :: 0 <= i < |ws| ==> r[i] == ws[i].entry.id
  {
    seq(|ws|, i requires 0 <= i < |ws| => ws[i].entry.id)
  }

  function ReuseIds(rs: seq<ReuseItem>): (r: seq<string>)
    ensures |r| == |rs| && forall i :: 0 <= i < |rs| ==> r[i] == rs[i].entry.id
  {
    seq(|rs|, i requires 0 <= i < |rs| => rs[i].entry.id)
  }

  function LeakIds(ls: seq<LeakItem>): (r: seq<string>)
    ensures |r| == |ls| && forall i :: 0 <= i < |ls| ==> r[i] == ls[i].entry.id
  {
    seq(|ls|, i requires 0 <= i < |ls| => ls[i].entry.id)
  }

  // ---------------------------------------------------------------------------
  // What runSecurityCheck computes, entry by entry

  /** The weak list: every entry scoring at most 2, with the analysis' reason, in list order. */
  function WeakOf(analyze: Analysis, es: seq<Entry>): (r: seq<WeakItem>)
    ensures forall m :: 0 <= m < |r| ==>
      r[m].entry in es && IsWeak(analyze, r[m].entry) && r[m].reason == analyze(r[m].entry.password).reason
    ensures forall i :: 0 <= i < |es| && IsWeak(analyze, es[i]) ==>
      WeakItem(es[i], analyze(es[i].password).reason) in r
    decreases |es|
  {
    if es == [] then []
    else
      var last := es[|es| - 1];
      assert forall x :: x in es[..|es| - 1] ==> x in es;
      WeakOf(analyze, es[..|es| - 1]) + (if IsWeak(analyze, last) then [WeakItem(last, analyze(last.password).reason)] else [])
  }

  /** The strong list: every entry scoring at least 5, in list order. */
  function StrongOf(analyze: Analysis, es: seq<Entry>): seq<Entry> {
    Seqs.Filter((e: Entry) => IsStrong(analyze, e), es)
  }

  /** The leaked list: every entry the breach lookup reports a positive count for, in list order. */
  function LeakedOf(es: seq<Entry>, leakCount: string -> nat): (r: seq<LeakItem>)
    ensures forall m :: 0 <= m < |r| ==>
      r[m].entry in es && r[m].count == leakCount(r[m].entry.password) && r[m].count > 0
    ensures forall i :: 0 <= i < |es| && leakCount(es[i].password) > 0 ==>
      LeakItem(es[i], leakCount(es[i].password)) in r
    decreases |es|
  {
    if es == [] then []
    else
      var last := es[|es| - 1];
      LeakedOf(es[..|es| - 1], leakCount) + (if leakCount(last.password) > 0 then [LeakItem(last, leakCount(last.password))] else [])
  }

  /** The entries sharing the password `pw`, in list order. */
  function Group(es: seq<Entry>, pw: string): seq<Entry> {
    Seqs.Filter((e: Entry) => e.password == pw, es)
  }

  /** The distinct passwords in order of first occurrence: the key order of `passwordCounts`. */
  function Distinct(es: seq<Entry>): (d: seq<string>)
    ensures forall k :: k in d <==> exists i :: 0 <= i < |es| && es[i].password == k
    ensures NoDup(d)
    decreases |es|
  {
    if es == [] then []
    else
      var d := Distinct(es[..|es| - 1]);
      var pw := es[|es| - 1].password;
      assert forall i :: 0 <= i < |es| - 1 ==> es[..|es| - 1][i] == es[i];
      if pw in d then d else d + [pw]
  }

  /** The inner loop over one group: add each entry whose id is not yet listed. */
  function AddGroup(acc: seq<ReuseItem>, group: seq<Entry>, n: nat): seq<ReuseItem>
    decreases |group|
  {
    if group == [] then acc
    else
      AddGroup(if group[0].id in ReuseIds(acc) then acc else acc + [ReuseItem(group[0], n)], group[1..], n)
  }

  /** The outer loop over the keys: every group of more than one entry goes through AddGroup. */
  function AddGroups(acc: seq<ReuseItem>, keys: seq<string>, es: seq<Entry>): seq<ReuseItem>
    decreases |keys|
  {
    if keys == [] then acc
    else
      var g := Group(es, keys[0]);
      AddGroups(if |g| > 1 then AddGroup(acc, g, |g|) else acc, keys[1..], es)
  }

  /** The reused list. */
  function ReusedOf(es: seq<Entry>): seq<ReuseItem> {
    AddGroups([], Distinct(es), es)
  }

  /** The four lists of a security check. */
  function CheckResults(analyze: Analysis, es: seq<Entry>, leakCount: string -> nat): Results {
    Results(WeakOf(analyze, es), ReusedOf(es), LeakedOf(es, leakCount), StrongOf(analyze, es))
  }

  // ---------------------------------------------------------------------------
  // runSecurityCheck, as the loops that compute it

  lemma GroupAppend(es: seq<Entry>, e: Entry, pw: string)
    ensures Group(es + [e], pw) == Group(es, pw) + (if e.password == pw then [e] else [])
  {
    Seqs.FilterConcat((x: Entry) => x.password == pw, es, [e]);
    assert [e][1..] == [];
  }

  lemma GroupEmpty(es: seq<Entry>, pw: string)
    requires forall i :: 0 <= i < |es| ==> es[i].password != pw
    ensures Group(es, pw) == []
  {
    Seqs.FilterNone((x: Entry) => x.password == pw, es);
  }

  /** One more entry at the end extends the weak and strong lists by at most that entry. */
  lemma AppendStep(analyze: Analysis, p: seq<Entry>, e: Entry)
    ensures WeakOf(analyze, p + [e]) == WeakOf(analyze, p) + (if IsWeak(analyze, e) then [WeakItem(e, analyze(e.password).reason)] else [])
    ensures StrongOf(analyze, p + [e]) == StrongOf(analyze, p) + (if IsStrong(analyze, e) then [e] else [])
  {
    assert (p + [e])[..|p|] == p;
    Seqs.FilterConcat((x: Entry) => IsStrong(analyze, x), p, [e]);
    assert [e][1..] == [];
  }

  lemma DistinctAppend(p: seq<Entry>, e: Entry)
    ensures Distinct(p + [e]) == if e.password in Distinct(p) then Distinct(p) else Distinct(p) + [e.password]
  {
    assert (p + [e])[..|p|] == p;
  }

  /** `counts` maps each password seen so far to its entries; `order` is its key order. */
  ghost predicate Grouped(p: seq<Entry>, counts: map<string, seq<Entry>>, order: seq<string>) {
    && order == Distinct(p)
    && (forall k :: k in counts <==> k in order)
    && (forall k :: k in counts ==> counts[k] == Group(p, k))
  }

  /** Adding an entry to the dictionary as the first loop does keeps it grouped: a known password. */
  lemma GroupedOld(p: seq<Entry>, e: Entry, counts: map<string, seq<Entry>>, order: seq<string>)
    requires Grouped(p, counts, order) && e.password in counts
    requires Distinct(p + [e]) == order
    ensures Grouped(p + [e], counts[e.password := counts[e.password] + [e]], order)
  {
    var counts' := counts[e.password := counts[e.password] + [e]];
    forall k | k in counts' ensures counts'[k] == Group(p + [e], k) {
      GroupAppend(p, e, k);
    }
  }

  /** ... and a new password, which joins the key order at the end. */
  lemma GroupedNew(p: seq<Entry>, e: Entry, counts: map<string, seq<Entry>>, order: seq<string>)
    requires Grouped(p, counts, order) && e.password !in counts
    requires Distinct(p + [e]) == order + [e.password]
    ensures Grouped(p + [e], counts[e.password := [e]], order + [e.password])
  {
    var counts' := counts[e.password := [e]];
    forall k | k in counts' ensures counts'[k] == Group(p + [e], k) {
      GroupAppend(p, e, k);
      if k == e.password {
        GroupEmpty(p, k);
      }
    }
  }

  /**
   * The first loop of runSecurityCheck: score every entry, file it as weak (score at most 2)
   * or strong (at least 5), and group entries by password in a dictionary whose keys keep
   * insertion order (`order`).
   */
  method ClassifyAndGroup(passwords: seq<Entry>)
    returns (weak: seq<WeakItem>, strong: seq<Entry>, counts: map<string, seq<Entry>>, order: seq<string>)
    ensures weak == WeakOf(Strength.Assess, passwords) && strong == StrongOf(Strength.Assess, passwords)
    ensures Grouped(passwords, counts, order)
  {
    weak, strong, counts, order := [], [], map[], [];
    for i := 0 to |passwords|
      invariant Grouped(passwords[..i], counts, order)
      invariant weak == WeakOf(Strength.Assess, passwords[..i])
      invariant strong == StrongOf(Strength.Assess, passwords[..i])
    {
      var entry := passwords[i];
      Seqs.TakeSnoc(passwords, i);
      AppendStep(Strength.Assess, passwords[..i], entry);
      DistinctAppend(passwords[..i], entry);

      if entry.password in counts {
        GroupedOld(passwords[..i], entry, counts, order);
        counts := counts[entry.password := counts[entry.password] + [entry]];
      } else {
        GroupedNew(passwords[..i], entry, counts, order);
        counts := counts[entry.password := [entry]];
        order := order + [entry.password];
      }

      var weakPart, strongPart := Classify(entry);
      weak, strong := weak + weakPart, strong + strongPart;
    }
    assert passwords[..|passwords|] == passwords;
  }

  /** The scoring step of the first loop for one entry: weak, strong, or neither. */
  method Classify(entry: Entry) returns (weakPart: seq<WeakItem>, strongPart: seq<Entry>)
    ensures weakPart == if IsWeak(Strength.Assess, entry) then [WeakItem(entry, Strength.Assess(entry.password).reason)] else []
    ensures strongPart == if IsStrong(Strength.Assess, entry) then [entry] else []
  {
    var score, reason := Strength.AnalyzePasswordStrength(entry.password);
    weakPart, strongPart := [], [];
    if score <= 2 {
      weakPart := [WeakItem(entry, reason)];
    } else if score >= 5 {
      strongPart := [entry];
    }
  }

  /** The inner loop of the second pass: list each entry of one group unless its id is listed. */
  method AddEntries(reused: seq<ReuseItem>, entries: seq<Entry>) returns (r: seq<ReuseItem>)
    ensures r == AddGroup(reused, entries, |entries|)
  {
    r := reused;
    for j := 0 to |entries|
      invariant AddGroup(r, entries[j..], |entries|) == AddGroup(reused, entries, |entries|)
    {
      Seqs.DropOne(entries, j);
      var entry := entries[j];
      if entry.id !in ReuseIds(r) {
        r := r + [ReuseItem(entry, |entries|)];
      }
    }
  }

  /**
   * The second loop: for every password held by more than one entry, list each of its
   * entries with the group size, unless an entry with that id is already listed.
   */
  method CollectReused(passwords: seq<Entry>, counts: map<string, seq<Entry>>, order: seq<string>)
    returns (reused: seq<ReuseItem>)
    requires Grouped(passwords, counts, order)
    ensures reused == AddGroups([], order, passwords)
  {
    reused := [];
    for k := 0 to |order|
      invariant AddGroups(reused, order[k..], passwords) == AddGroups([], order, passwords)
    {
      Seqs.DropOne(order, k);
      var entries := counts[order[k]];
      if |entries| > 1 {
        reused := AddEntries(reused, entries);
      }
    }
  }

  /** The third loop: ask the breach lookup about every entry and keep the positive counts. */
  method CollectLeaked(passwords: seq<Entry>, leakCount: string -> nat) returns (leaked: seq<LeakItem>)
    ensures leaked == LeakedOf(passwords, leakCount)
  {
    leaked := [];
    for i := 0 to |passwords|
      invariant leaked == LeakedOf(passwords[..i], leakCount)
    {
      assert passwords[..i + 1][..i] == passwords[..i];
      var isLeaked := leakCount(passwords[i].password);
      if isLeaked > 0 {
        leaked := leaked + [LeakItem(passwords[i], isLeaked)];
      }
    }
    assert passwords[..|passwords|] == passwords;
  }

  /**
   * runSecurityCheck without the DOM; `leakCount` stands for the breach lookup, 0 meaning
   * not found.
   */
  method RunSecurityCheck(passwords: seq<Entry>, leakCount: string -> nat) returns (res: Results)
    ensures res == CheckResults(Strength.Assess, passwords, leakCount)
  {
    var weak, strong, counts, order := ClassifyAndGroup(passwords);
    var reused := CollectReused(passwords, counts, order);
    var leaked := CollectLeaked(passwords, leakCount);
    res := Results(weak, reused, leaked, strong);
  }

  // ---------------------------------------------------------------------------
  // Properties of the classification

  /** Weak means a score of at most 2, strong at least 5: no entry is both. */
  lemma WeakAndStrongDisjoint(analyze: Analysis, es: seq<Entry>)
    ensures forall m, k :: 0 <= m < |WeakOf(analyze, es)| && 0 <= k < |StrongOf(analyze, es)| ==>
      WeakOf(analyze, es)[m].entry != StrongOf(analyze, es)[k]
  {
  }

  /** A password the analysis calls 'Stark' lands in the strong list. */
  lemma StarkIsStrong(es: seq<Entry>, i: int)
    requires 0 <= i < |es| && Strength.Assess(es[i].password).reason == "Stark"
    ensures es[i] in StrongOf(Strength.Assess, es)
  {
    Strength.StarkMeansStrong(es[i].password);
    Seqs.FilterComplete((e: Entry) => IsStrong(Strength.Assess, e), es);
  }

  lemma {:induction false} AddGroupPrefix(acc: seq<ReuseItem>, group: seq<Entry>, n: nat)
    ensures |acc| <= |AddGroup(acc, group, n)| && AddGroup(acc, group, n)[..|acc|] == acc
    decreases |group|
  {
    if group != [] {
      var next := if group[0].id in ReuseIds(acc) then acc else acc + [ReuseItem(group[0], n)];
      AddGroupPrefix(next, group[1..], n);
      var r := AddGroup(acc, group, n);
      assert r == AddGroup(next, group[1..], n);
      assert r[..|acc|] == r[..|next|][..|acc|];
    }
  }

  /** An id listed before the inner loop stays listed. */
  lemma AddGroupKeepsIds(acc: seq<ReuseItem>, group: seq<Entry>, n: nat, x: string)
    requires x in ReuseIds(acc)
    ensures x in ReuseIds(AddGroup(acc, group, n))
  {
    AddGroupPrefix(acc, group, n);
    var r := AddGroup(acc, group, n);
    var m :| 0 <= m < |acc| && ReuseIds(acc)[m] == x;
    assert r[..|acc|][m] == acc[m];
  }

  /** Each item the inner loop appends is an entry of the group, with count `n`. */
  lemma {:induction false} AddGroupItems(acc: seq<ReuseItem>, group: seq<Entry>, n: nat)
    ensures forall m :: |acc| <= m < |AddGroup(acc, group, n)| ==>
      AddGroup(acc, group, n)[m].count == n && AddGroup(acc, group, n)[m].entry in group
    decreases |group|
  {
    if group != [] {
      var next := if group[0].id in ReuseIds(acc) then acc else acc + [ReuseItem(group[0], n)];
      AddGroupItems(next, group[1..], n);
      AddGroupPrefix(next, group[1..], n);
      var r := AddGroup(acc, group, n);
      assert r == AddGroup(next, group[1..], n);
      forall m | |acc| <= m < |r| ensures r[m].count == n && r[m].entry in group {
        if m < |next| {
          assert r[..|next|][m] == next[m];
        } else {
          assert r[m].entry in group[1..];
        }
      }
    }
  }

  /** The inner loop never lists an id twice. */
  lemma {:induction false} AddGroupNoDup(acc: seq<ReuseItem>, group: seq<Entry>, n: nat)
    requires NoDup(ReuseIds(acc))
    ensures NoDup(ReuseIds(AddGroup(acc, group, n)))
    decreases |group|
  {
    if group != [] {
      var next := if group[0].id in ReuseIds(acc) then acc else acc + [ReuseItem(group[0], n)];
      assert NoDup(ReuseIds(next));
      AddGroupNoDup(next, group[1..], n);
    }
  }

  /** One step of the inner loop leaves the entry's id listed. */
  lemma ListedAfterStep(acc: seq<ReuseItem>, e: Entry, n: nat)
    ensures e.id in ReuseIds(if e.id in ReuseIds(acc) then acc else acc + [ReuseItem(e, n)])
  {
    if e.id !in ReuseIds(acc) {
      assert ReuseIds(acc + [ReuseItem(e, n)])[|acc|] == e.id;
    }
  }

  /** After the inner loop every entry of the group is listed by id. */
  lemma {:induction false} AddGroupCovers(acc: seq<ReuseItem>, group: seq<Entry>, n: nat)
    ensures forall j :: 0 <= j < |group| ==> group[j].id in ReuseIds(AddGroup(acc, group, n))
    decreases |group|
  {
    if group != [] {
      var next := if group[0].id in ReuseIds(acc) then acc else acc + [ReuseItem(group[0], n)];
      AddGroupCovers(next, group[1..], n);
      var r := AddGroup(acc, group, n);
      assert r == AddGroup(next, group[1..], n);
      ListedAfterStep(acc, group[0], n);
      AddGroupKeepsIds(next, group[1..], n, group[0].id);
      forall j | 1 <= j < |group| ensures group[j].id in ReuseIds(r) {
        assert group[j] == group[1..][j - 1];
      }
    }
  }

  /** The outer loop only appends to the reused list. */
  lemma {:induction false} AddGroupsPrefix(acc: seq<ReuseItem>, keys: seq<string>, es: seq<Entry>)
    ensures |acc| <= |AddGroups(acc, keys, es)| && AddGroups(acc, keys, es)[..|acc|] == acc
    decreases |keys|
  {
    if keys != [] {
      var g := Group(es, keys[0]);
      var next := if |g| > 1 then AddGroup(acc, g, |g|) else acc;
      AddGroupsPrefix(next, keys[1..], es);
      if |g| > 1 {
        AddGroupPrefix(acc, g, |g|);
      }
      var r := AddGroups(acc, keys, es);
      assert r == AddGroups(next, keys[1..], es);
      assert r[..|acc|] == r[..|next|][..|acc|];
    }
  }

  /** A reused item names an entry of the list whose password group has more than one member, with its size. */
  predicate SharedItem(es: seq<Entry>, item: ReuseItem) {
    item.entry in es && item.count == |Group(es, item.entry.password)| && item.count > 1
  }

  /** A member of a group of more than one entry, listed with the group's size, is a shared item. */
  lemma GroupMemberShared(es: seq<Entry>, pw: string, e: Entry)
    requires e in Group(es, pw) && |Group(es, pw)| > 1
    ensures SharedItem(es, ReuseItem(e, |Group(es, pw)|))
  {
    var g := Group(es, pw);
    var k :| 0 <= k < |g| && g[k] == e;
    assert g[k] in es && g[k].password == pw;
  }

  /** Each item the outer loop appends is a shared item. */

  lemma {:induction false} AddGroupsItems(acc: seq<ReuseItem>, keys: seq<string>, es: seq<Entry>)
    ensures forall m :: |acc| <= m < |AddGroups(acc, keys, es)| ==> SharedItem(es, AddGroups(acc, keys, es)[m])
    decreases |keys|
  {
    if keys != [] {
      var g := Group(es, keys[0]);
      var next := if |g| > 1 then AddGroup(acc, g, |g|) else acc;
      AddGroupsItems(next, keys[1..], es);
      var r := AddGroups(acc, keys, es);
      assert r == AddGroups(next, keys[1..], es);
      if |g| > 1 {
        var added := AddGroup(acc, g, |g|);
        assert next == added;
        AddGroupsPrefix(added, keys[1..], es);
        AddGroupItems(acc, g, |g|);
        forall m | |acc| <= m < |added| ensures SharedItem(es, r[m]) {
          assert r[..|added|][m] == added[m];
          GroupMemberShared(es, keys[0], added[m].entry);
        }
      }
    }
  }

  /** The outer loop never lists an id twice. */
  lemma {:induction false} AddGroupsNoDup(acc: seq<ReuseItem>, keys: seq<string>, es: seq<Entry>)
    requires NoDup(ReuseIds(acc))
    ensures NoDup(ReuseIds(AddGroups(acc, keys, es)))
    decreases |keys|
  {
    if keys != [] {
      var g := Group(es, keys[0]);
      var next := if |g| > 1 then AddGroup(acc, g, |g|) else acc;
      if |g| > 1 {
        AddGroupNoDup(acc, g, |g|);
      }
      AddGroupsNoDup(next, keys[1..], es);
      assert AddGroups(acc, keys, es) == AddGroups(next, keys[1..], es);
    }
  }

  /** An id listed before the outer loop stays listed. */
  lemma AddGroupsKeepsIds(acc: seq<ReuseItem>, keys: seq<string>, es: seq<Entry>, x: string)
    requires x in ReuseIds(acc)
    ensures x in ReuseIds(AddGroups(acc, keys, es))
  {
    AddGroupsPrefix(acc, keys, es);
    var r := AddGroups(acc, keys, es);
    var m :| 0 <= m < |acc| && ReuseIds(acc)[m] == x;
    assert r[..|acc|][m] == acc[m];
  }

  /** Every entry whose password is among the keys and shared by its group gets listed by id. */
  lemma {:induction false} AddGroupsCovers(acc: seq<ReuseItem>, keys: seq<string>, es: seq<Entry>)
    ensures var r := AddGroups(acc, keys, es);
      forall i :: 0 <= i < |es| && es[i].password in keys && |Group(es, es[i].password)| > 1 ==>
        es[i].id in ReuseIds(r)
    decreases |keys|
  {
    if keys != [] {
      var g := Group(es, keys[0]);
      var next := if |g| > 1 then AddGroup(acc, g, |g|) else acc;
      AddGroupsCovers(next, keys[1..], es);
      if |g| > 1 {
        AddGroupCovers(acc, g, |g|);
      }
      var r := AddGroups(acc, keys, es);
      assert r == AddGroups(next, keys[1..], es);
      forall i | 0 <= i < |es| && es[i].password in keys && |Group(es, es[i].password)| > 1
        ensures es[i].id in ReuseIds(r)
      {
        if es[i].password == keys[0] {
          Seqs.FilterComplete((e: Entry) => e.password == keys[0], es);
          assert es[i] in g;
          var j :| 0 <= j < |g| && g[j] == es[i];
          assert es[i].id in ReuseIds(next);
          AddGroupsKeepsIds(next, keys[1..], es, es[i].id);
        } else {
          assert es[i].password in keys[1..];
        }
      }
    }
  }

  /**
   * The reused list names each id at most once; each item comes from the list, with its
   * group size as count, and that size is above 1; every entry whose password is shared by
   * its group is listed by id.
   */
  lemma ReusedSpec(es: seq<Entry>)
    ensures NoDup(ReuseIds(ReusedOf(es)))
    ensures forall m :: 0 <= m < |ReusedOf(es)| ==>
      var item := ReusedOf(es)[m];
      item.entry in es && item.count == |Group(es, item.entry.password)| && item.count > 1
    ensures forall i :: 0 <= i < |es| && |Group(es, es[i].password)| > 1 ==> es[i].id in ReuseIds(ReusedOf(es))
  {
    AddGroupsItems([], Distinct(es), es);
    AddGroupsNoDup([], Distinct(es), es);
    AddGroupsCovers([], Distinct(es), es);
  }

  /** Each reused item is an entry of the list. */
  lemma ReusedEntriesIn(es: seq<Entry>, m: int)
    requires 0 <= m < |ReusedOf(es)|
    ensures ReusedOf(es)[m].entry in es
  {
    ReusedSpec(es);
  }

  /** Another entry with the same password exists. */
  predicate Shared(es: seq<Entry>, i: int)
    requires 0 <= i < |es|
  {
    exists j :: 0 <= j < |es| && j != i && es[j].password == es[i].password
  }

  /** A group has more than one member exactly when the password is shared. */
  lemma GroupSizeShared(es: seq<Entry>, i: int)
    requires 0 <= i < |es|
    ensures |Group(es, es[i].password)| > 1 <==> Shared(es, i)
  {
    var keep := (e: Entry) => e.password == es[i].password;
    if Shared(es, i) {
      var j :| 0 <= j < |es| && j != i && es[j].password == es[i].password;
      if i < j { Seqs.FilterTwo(keep, es, i, j); } else { Seqs.FilterTwo(keep, es, j, i); }
    } else {
      Seqs.FilterOne(keep, es, i);
    }
  }

  /**
   * With ids unique in the vault, an entry is listed as reused exactly when another entry
   * has an identical password, and its count is the number of entries sharing it.
   */
  lemma ReusedIffShared(es: seq<Entry>, i: int)
    requires NoDup(EntryIds(es))
    requires 0 <= i < |es|
    ensures (exists m :: 0 <= m < |ReusedOf(es)| && ReusedOf(es)[m].entry == es[i]) <==> Shared(es, i)
    ensures forall m :: 0 <= m < |ReusedOf(es)| && ReusedOf(es)[m].entry == es[i] ==>
      ReusedOf(es)[m].count == |Group(es, es[i].password)|
  {
    var r := ReusedOf(es);
    ReusedSpec(es);
    GroupSizeShared(es, i);
    if Shared(es, i) {
      assert es[i].id in ReuseIds(r);
      var m :| 0 <= m < |r| && ReuseIds(r)[m] == es[i].id;
      var x := r[m].entry;
      assert x in es;
      var j :| 0 <= j < |es| && es[j] == x;
      assert EntryIds(es)[j] == EntryIds(es)[i];
      assert j == i;
    }
  }

  // ---------------------------------------------------------------------------
  // updateSecurityUI: score, status band and issue list

  /** `100 - 15 * weak - 10 * reused - 25 * leaked`, clamped to 0..100. */
  function SecurityScore(weak: nat, reused: nat, leaked: nat): (score: int)
    ensures 0 <= score <= 100
    ensures score == 100 <==> weak + reused + leaked == 0
  {
    Strength.Clamp(100 - weak * 15 - reused * 10 - leaked * 25, 0, 100)
  }

  /** The score as updateSecurityUI computes it, one deduction at a time. */
  method ComputeScore(results: Results) returns (score: int)
    ensures score == SecurityScore(|results.weak|, |results.reused|, |results.leaked|)
  {
    score := 100;
    score := score - |results.weak| * 15;
    score := score - |results.reused| * 10;
    score := score - |results.leaked| * 25;
    score := Strength.Clamp(score, 0, 100);
  }

  /** More issues of any kind never raise the score. */
  lemma ScoreMonotone(w: nat, r: nat, l: nat, w': nat, r': nat, l': nat)
    requires w <= w' && r <= r' && l <= l'
    ensures SecurityScore(w', r', l') <= SecurityScore(w, r, l)
  {
  }

  /** 'Ausgezeichnet!', 'Verbesserungsbedarf', 'Kritisch!' */
  datatype Standing = Excellent | NeedsWork | Critical

  function StatusOf(score: int): Standing {
    if score >= 80 then Excellent else if score >= 50 then NeedsWork else Critical
  }

  /** The colour class of the score circle: danger below 50, warning below 80. */
  datatype Tint = Danger | Warning | Plain

  function TintOf(score: int): Tint {
    if score < 50 then Danger else if score < 80 then Warning else Plain
  }

  /** The status text and the circle's colour always tell the same story. */
  lemma StatusMatchesTint(score: int)
    ensures StatusOf(score) == Critical <==> TintOf(score) == Danger
    ensures StatusOf(score) == NeedsWork <==> TintOf(score) == Warning
    ensures StatusOf(score) == Excellent <==> TintOf(score) == Plain
  {
  }

  /** No two issues can make the vault critical: each costs at most 25 points. */
  lemma CriticalNeedsThreeIssues(w: nat, r: nat, l: nat)
    requires StatusOf(SecurityScore(w, r, l)) == Critical
    ensures w + r + l >= 3
  {
  }

  /** An excellent rating rules out any leaked password and more than one weak one. */
  lemma ExcellentMeansNoLeaks(w: nat, r: nat, l: nat)
    requires StatusOf(SecurityScore(w, r, l)) == Excellent
    ensures l == 0 && w <= 1 && r <= 2
  {
  }

  datatype IssueKind = LeakedIssue(count: nat) | WeakIssue(reason: string) | ReusedIssue(count: nat)
  datatype Issue = Issue(entry: Entry, kind: IssueKind)

  function IssueIds(xs: seq<Issue>): (r: seq<string>)
    ensures |r| == |xs| && forall i :: 0 <= i < |xs| ==> r[i] == xs[i].entry.id
  {
    seq(|xs|, i requires 0 <= i < |xs| => xs[i].entry.id)
  }

  function LeakIssues(ls: seq<LeakItem>): (r: seq<Issue>)
    ensures |r| == |ls|
    ensures forall m :: 0 <= m < |ls| ==> r[m] == Issue(ls[m].entry, LeakedIssue(ls[m].count))
    decreases |ls|
  {
    if ls == [] then [] else [Issue(ls[0].entry, LeakedIssue(ls[0].count))] + LeakIssues(ls[1..])
  }

  /** The issue one weak item contributes: none when it is leaked. */
  function WeakIssuesHead(item: WeakItem, ls: seq<LeakItem>): seq<Issue> {
    if item.entry.id !in LeakIds(ls) then [Issue(item.entry, WeakIssue(item.reason))] else []
  }

  /** Weak entries not already listed as leaked. */
  function WeakIssues(ws: seq<WeakItem>, ls: seq<LeakItem>): seq<Issue>
    decreases |ws|
  {
    if ws == [] then []
    else WeakIssuesHead(ws[0], ls) + WeakIssues(ws[1..], ls)
  }

  lemma WeakIssuesStep(ws: seq<WeakItem>, k: int, ls: seq<LeakItem>)
    requires 0 <= k < |ws|
    ensures WeakIssues(ws[k..], ls) == WeakIssuesHead(ws[k], ls) + WeakIssues(ws[k + 1..], ls)
  {
    Seqs.DropOne(ws, k);
  }

  /** The issue one reused item contributes: none when it is leaked or weak. */
  function ReuseIssuesHead(item: ReuseItem, ls: seq<LeakItem>, ws: seq<WeakItem>): seq<Issue> {
    if item.entry.id !in LeakIds(ls) && item.entry.id !in WeakIds(ws)
    then [Issue(item.entry, ReusedIssue(item.count))] else []
  }

  /** Reused entries neither leaked nor weak. */
  function ReuseIssues(rs: seq<ReuseItem>, ls: seq<LeakItem>, ws: seq<WeakItem>): seq<Issue>
    decreases |rs|
  {
    if rs == [] then []
    else ReuseIssuesHead(rs[0], ls, ws) + ReuseIssues(rs[1..], ls, ws)
  }

  lemma ReuseIssuesStep(rs: seq<ReuseItem>, k: int, ls: seq<LeakItem>, ws: seq<WeakItem>)
    requires 0 <= k < |rs|
    ensures ReuseIssues(rs[k..], ls, ws) == ReuseIssuesHead(rs[k], ls, ws) + ReuseIssues(rs[k + 1..], ls, ws)
  {
    Seqs.DropOne(rs, k);
  }

  /** Each weak issue comes from a weak entry that is not leaked, and every such entry has one. */
  lemma {:induction false} WeakIssuesSpec(ws: seq<WeakItem>, ls: seq<LeakItem>)
    ensures var r := WeakIssues(ws, ls);
      && (forall m :: 0 <= m < |r| ==>
            exists k :: 0 <= k < |ws| && r[m] == Issue(ws[k].entry, WeakIssue(ws[k].reason)) && ws[k].entry.id !in LeakIds(ls))
      && (forall k :: 0 <= k < |ws| && ws[k].entry.id !in LeakIds(ls) ==>
            Issue(ws[k].entry, WeakIssue(ws[k].reason)) in r)
    decreases |ws|
  {
    if ws != [] {
      WeakIssuesSpec(ws[1..], ls);
      var r := WeakIssues(ws, ls);
      var head := if ws[0].entry.id !in LeakIds(ls) then [Issue(ws[0].entry, WeakIssue(ws[0].reason))] else [];
      var rest := WeakIssues(ws[1..], ls);
      assert r == head + rest;
      forall m | 0 <= m < |r|
        ensures exists k :: 0 <= k < |ws| && r[m] == Issue(ws[k].entry, WeakIssue(ws[k].reason)) && ws[k].entry.id !in LeakIds(ls)
      {
        if m >= |head| {
          assert r[m] == rest[m - |head|];
          var k :| 0 <= k < |ws[1..]| && rest[m - |head|] == Issue(ws[1..][k].entry, WeakIssue(ws[1..][k].reason))
            && ws[1..][k].entry.id !in LeakIds(ls);
          assert ws[1..][k] == ws[k + 1];
        } else {
          assert r[m] == head[m];
        }
      }
      forall k | 0 <= k < |ws| && ws[k].entry.id !in LeakIds(ls) ensures Issue(ws[k].entry, WeakIssue(ws[k].reason)) in r {
        if k > 0 {
          assert ws[k] == ws[1..][k - 1];
        }
      }
    }
  }

  /** Each reuse issue comes from a reused entry neither leaked nor weak, and every such entry has one. */
  lemma {:induction false} ReuseIssuesSpec(rs: seq<ReuseItem>, ls: seq<LeakItem>, ws: seq<WeakItem>)
    ensures var r := ReuseIssues(rs, ls, ws);
      && (forall m :: 0 <= m < |r| ==>
            exists k :: (0 <= k < |rs| && r[m] == Issue(rs[k].entry, ReusedIssue(rs[k].count))
              && rs[k].entry.id !in LeakIds(ls) && rs[k].entry.id !in WeakIds(ws)))
      && (forall k :: 0 <= k < |rs| && rs[k].entry.id !in LeakIds(ls) && rs[k].entry.id !in WeakIds(ws) ==>
            Issue(rs[k].entry, ReusedIssue(rs[k].count)) in r)
    decreases |rs|
  {
    if rs != [] {
      ReuseIssuesSpec(rs[1..], ls, ws);
      var r := ReuseIssues(rs, ls, ws);
      var head := if rs[0].entry.id !in LeakIds(ls) && rs[0].entry.id !in WeakIds(ws)
        then [Issue(rs[0].entry, ReusedIssue(rs[0].count))] else [];
      var rest := ReuseIssues(rs[1..], ls, ws);
      assert r == head + rest;
      forall m | 0 <= m < |r|
        ensures exists k :: (0 <= k < |rs| && r[m] == Issue(rs[k].entry, ReusedIssue(rs[k].count))
          && rs[k].entry.id !in LeakIds(ls) && rs[k].entry.id !in WeakIds(ws))
      {
        if m >= |head| {
          var i := m - |head|;
          assert r[m] == rest[i];
          var tail := rs[1..];
          assert exists k :: (0 <= k < |tail| && rest[i] == Issue(tail[k].entry, ReusedIssue(tail[k].count))
            && tail[k].entry.id !in LeakIds(ls) && tail[k].entry.id !in WeakIds(ws));
          var k :| 0 <= k < |tail| && rest[i] == Issue(tail[k].entry, ReusedIssue(tail[k].count))
            && tail[k].entry.id !in LeakIds(ls) && tail[k].entry.id !in WeakIds(ws);
          assert rs[1..][k] == rs[k + 1];
        } else {
          assert r[m] == head[m];
        }
      }
      forall k | 0 <= k < |rs| && rs[k].entry.id !in LeakIds(ls) && rs[k].entry.id !in WeakIds(ws)
        ensures Issue(rs[k].entry, ReusedIssue(rs[k].count)) in r
      {
        if k > 0 {
          assert rs[k] == rs[1..][k - 1];
        }
      }
    }
  }

  /** Every weak issue is of the weak kind and names an entry that is not leaked. */
  lemma {:induction false} WeakIssuesNotLeaked(ws: seq<WeakItem>, ls: seq<LeakItem>)
    ensures forall m :: 0 <= m < |WeakIssues(ws, ls)| ==>
      WeakIssues(ws, ls)[m].kind.WeakIssue? && WeakIssues(ws, ls)[m].entry.id !in LeakIds(ls)
    decreases |ws|
  {
    if ws != [] {
      WeakIssuesNotLeaked(ws[1..], ls);
      var head := if ws[0].entry.id !in LeakIds(ls) then [Issue(ws[0].entry, WeakIssue(ws[0].reason))] else [];
      var rest := WeakIssues(ws[1..], ls);
      assert WeakIssues(ws, ls) == head + rest;
      forall m | |head| <= m < |head + rest| ensures (head + rest)[m] == rest[m - |head|] {
      }
    }
  }

  /** Every reuse issue is of the reused kind and names an entry neither leaked nor weak. */
  lemma {:induction false} ReuseIssuesNotLeakedOrWeak(rs: seq<ReuseItem>, ls: seq<LeakItem>, ws: seq<WeakItem>)
    ensures forall m :: 0 <= m < |ReuseIssues(rs, ls, ws)| ==>
      && ReuseIssues(rs, ls, ws)[m].kind.ReusedIssue?
      && ReuseIssues(rs, ls, ws)[m].entry.id !in LeakIds(ls)
      && ReuseIssues(rs, ls, ws)[m].entry.id !in WeakIds(ws)
    decreases |rs|
  {
    if rs != [] {
      ReuseIssuesNotLeakedOrWeak(rs[1..], ls, ws);
      var head := if rs[0].entry.id !in LeakIds(ls) && rs[0].entry.id !in WeakIds(ws)
        then [Issue(rs[0].entry, ReusedIssue(rs[0].count))] else [];
      var rest := ReuseIssues(rs[1..], ls, ws);
      assert ReuseIssues(rs, ls, ws) == head + rest;
      forall m | |head| <= m < |head + rest| ensures (head + rest)[m] == rest[m - |head|] {
      }
    }
  }

  /** The issue list: leaked first, then weak, then reused. */
  function IssueList(res: Results): seq<Issue> {
    LeakIssues(res.leaked) + WeakIssues(res.weak, res.leaked) + ReuseIssues(res.reused, res.leaked, res.weak)
  }

  /**
   * The three loops of updateSecurityUI that fill the issue list: every leaked entry, then
   * the weak entries not leaked, then the reused entries neither leaked nor weak.
   */
  method BuildIssueList(results: Results) returns (issues: seq<Issue>)
    ensures issues == IssueList(results)
  {
    var leakIssues := LeakLoop(results.leaked);
    var weakIssues := WeakLoop(results.weak, results.leaked);
    var reuseIssues := ReuseLoop(results.reused, results.leaked, results.weak);
    issues := leakIssues + weakIssues + reuseIssues;
  }

  method LeakLoop(leaked: seq<LeakItem>) returns (issues: seq<Issue>)
    ensures issues == LeakIssues(leaked)
  {
    issues := [];
    for k := 0 to |leaked|
      invariant issues + LeakIssues(leaked[k..]) == LeakIssues(leaked)
    {
      Seqs.DropOne(leaked, k);
      var issue := Issue(leaked[k].entry, LeakedIssue(leaked[k].count));
      assert LeakIssues(leaked[k..]) == [issue] + LeakIssues(leaked[k + 1..]);
      Seqs.AppendAssoc(issues, [issue], LeakIssues(leaked[k + 1..]));
      issues := issues + [issue];
    }
  }

  method WeakLoop(weak: seq<WeakItem>, leaked: seq<LeakItem>) returns (issues: seq<Issue>)
    ensures issues == WeakIssues(weak, leaked)
  {
    issues := [];
    for k := 0 to |weak|
      invariant issues + WeakIssues(weak[k..], leaked) == WeakIssues(weak, leaked)
    {
      var item := weak[k];
      WeakIssuesStep(weak, k, leaked);
      Seqs.AppendAssoc(issues, WeakIssuesHead(item, leaked), WeakIssues(weak[k + 1..], leaked));
      if item.entry.id !in LeakIds(leaked) {
        issues := issues + [Issue(item.entry, WeakIssue(item.reason))];
      }
    }
  }

  method ReuseLoop(reused: seq<ReuseItem>, leaked: seq<LeakItem>, weak: seq<WeakItem>) returns (issues: seq<Issue>)
    ensures issues == ReuseIssues(reused, leaked, weak)
  {
    issues := [];
    for k := 0 to |reused|
      invariant issues + ReuseIssues(reused[k..], leaked, weak) == ReuseIssues(reused, leaked, weak)
    {
      var item := reused[k];
      ReuseIssuesStep(reused, k, leaked, weak);
      Seqs.AppendAssoc(issues, ReuseIssuesHead(item, leaked, weak), ReuseIssues(reused[k + 1..], leaked, weak));
      if item.entry.id !in LeakIds(leaked) && item.entry.id !in WeakIds(weak) {
        issues := issues + [Issue(item.entry, ReusedIssue(item.count))];
      }
    }
  }


  // ---------------------------------------------------------------------------
  // Each entry is reported at most once

  /** With unique ids, two positions holding the same id are the same position. */
  lemma SameId(es: seq<Entry>, i: int, j: int)
    requires NoDup(EntryIds(es)) && 0 <= i < |es| && 0 <= j < |es|
    ensures es[i].id == es[j].id ==> i == j
  {
    if es[i].id == es[j].id {
      assert EntryIds(es)[i] == EntryIds(es)[j];
    }
  }

  /** Dropping the last entry keeps the ids unique. */
  lemma NoDupInit(es: seq<Entry>)
    requires es != [] && NoDup(EntryIds(es))
    ensures NoDup(EntryIds(es[..|es| - 1]))
  {
    var init := es[..|es| - 1];
    forall a, b | 0 <= a < b < |init| ensures EntryIds(init)[a] != EntryIds(init)[b] {
      SameId(es, a, b);
    }
  }

  lemma {:induction false} WeakOfUnique(analyze: Analysis, es: seq<Entry>)
    requires NoDup(EntryIds(es))
    ensures NoDup(WeakIds(WeakOf(analyze, es)))
    decreases |es|
  {
    if es != [] {
      var init := es[..|es| - 1];
      var last := es[|es| - 1];
      NoDupInit(es);
      WeakOfUnique(analyze, init);
      var w := WeakOf(analyze, init);
      if IsWeak(analyze, last) {
        assert last.id !in WeakIds(w);
        assert WeakOf(analyze, es) == w + [WeakItem(last, analyze(last.password).reason)];
        assert WeakIds(WeakOf(analyze, es)) == WeakIds(w) + [last.id];
        NoDupSnoc(WeakIds(w), last.id);
      } else {
        assert WeakOf(analyze, es) == w;
      }
    }
  }

  lemma {:induction false} LeakedOfUnique(es: seq<Entry>, leakCount: string -> nat)
    requires NoDup(EntryIds(es))
    ensures NoDup(LeakIds(LeakedOf(es, leakCount)))
    decreases |es|
  {
    if es != [] {
      var init := es[..|es| - 1];
      var last := es[|es| - 1];
      NoDupInit(es);
      LeakedOfUnique(init, leakCount);
      var l := LeakedOf(init, leakCount);
      if leakCount(last.password) > 0 {
        assert last.id !in LeakIds(l);
        assert LeakedOf(es, leakCount) == l + [LeakItem(last, leakCount(last.password))];
        assert LeakIds(LeakedOf(es, leakCount)) == LeakIds(l) + [last.id];
        NoDupSnoc(LeakIds(l), last.id);
      } else {
        assert LeakedOf(es, leakCount) == l;
      }
    }
  }

  lemma IssueIdsConcat(a: seq<Issue>, b: seq<Issue>)
    ensures IssueIds(a + b) == IssueIds(a) + IssueIds(b)
  {
  }

  lemma NoDupSnoc(ids: seq<string>, x: string)
    requires NoDup(ids) && x !in ids
    ensures NoDup(ids + [x])
  {
  }

  lemma NoDupTail(ids: seq<string>)
    requires NoDup(ids) && ids != []
    ensures NoDup(ids[1..]) && ids[0] !in ids[1..]
  {
    forall a, b | 0 <= a < b < |ids| - 1 ensures ids[1..][a] != ids[1..][b] {
      assert ids[1..][a] == ids[a + 1] && ids[1..][b] == ids[b + 1];
    }
    forall k | 0 <= k < |ids| - 1 ensures ids[1..][k] != ids[0] {
      assert ids[1..][k] == ids[k + 1];
    }
  }

  lemma NoDupConcat(a: seq<string>, b: seq<string>)
    requires NoDup(a) && NoDup(b)
    requires forall x :: x in a ==> x !in b
    ensures NoDup(a + b)
  {
    forall i, j | 0 <= i < j < |a + b| ensures (a + b)[i] != (a + b)[j] {
      if j >= |a| && i < |a| {
        assert (a + b)[i] in a;
        assert (a + b)[j] == b[j - |a|];
      }
    }
  }

  /** Every weak issue names a weak entry that is not leaked. */
  lemma {:induction false} WeakIssuesIds(ws: seq<WeakItem>, ls: seq<LeakItem>)
    ensures forall x :: x in IssueIds(WeakIssues(ws, ls)) ==> x in WeakIds(ws) && x !in LeakIds(ls)
    decreases |ws|
  {
    if ws != [] {
      WeakIssuesIds(ws[1..], ls);
      var head := if ws[0].entry.id !in LeakIds(ls) then [Issue(ws[0].entry, WeakIssue(ws[0].reason))] else [];
      var rest := WeakIssues(ws[1..], ls);
      assert WeakIssues(ws, ls) == head + rest;
      IssueIdsConcat(head, rest);
      assert WeakIds(ws) == [ws[0].entry.id] + WeakIds(ws[1..]);
    }
  }

  lemma {:induction false} WeakIssuesUnique(ws: seq<WeakItem>, ls: seq<LeakItem>)
    requires NoDup(WeakIds(ws))
    ensures NoDup(IssueIds(WeakIssues(ws, ls)))
    ensures forall x :: x in IssueIds(WeakIssues(ws, ls)) ==> x in WeakIds(ws) && x !in LeakIds(ls)
    decreases |ws|
  {
    WeakIssuesIds(ws, ls);
    if ws != [] {
      var rest := WeakIssues(ws[1..], ls);
      assert WeakIds(ws[1..]) == WeakIds(ws)[1..];
      NoDupTail(WeakIds(ws));
      WeakIssuesUnique(ws[1..], ls);
      var head := if ws[0].entry.id !in LeakIds(ls) then [Issue(ws[0].entry, WeakIssue(ws[0].reason))] else [];
      assert WeakIssues(ws, ls) == head + rest;
      IssueIdsConcat(head, rest);
      NoDupConcat(IssueIds(head), IssueIds(rest));
    }
  }

  /** Every reuse issue names a reused entry that is neither leaked nor weak. */
  lemma {:induction false} ReuseIssuesIds(rs: seq<ReuseItem>, ls: seq<LeakItem>, ws: seq<WeakItem>)
    ensures forall x :: x in IssueIds(ReuseIssues(rs, ls, ws)) ==> x in ReuseIds(rs) && x !in LeakIds(ls) && x !in WeakIds(ws)
    decreases |rs|
  {
    if rs != [] {
      ReuseIssuesIds(rs[1..], ls, ws);
      var head := if rs[0].entry.id !in LeakIds(ls) && rs[0].entry.id !in WeakIds(ws)
        then [Issue(rs[0].entry, ReusedIssue(rs[0].count))] else [];
      var rest := ReuseIssues(rs[1..], ls, ws);
      assert ReuseIssues(rs, ls, ws) == head + rest;
      IssueIdsConcat(head, rest);
      assert ReuseIds(rs) == [rs[0].entry.id] + ReuseIds(rs[1..]);
    }
  }

  lemma {:induction false} ReuseIssuesUnique(rs: seq<ReuseItem>, ls: seq<LeakItem>, ws: seq<WeakItem>)
    requires NoDup(ReuseIds(rs))
    ensures NoDup(IssueIds(ReuseIssues(rs, ls, ws)))
    ensures forall x :: x in IssueIds(ReuseIssues(rs, ls, ws)) ==> x in ReuseIds(rs) && x !in LeakIds(ls) && x !in WeakIds(ws)
    decreases |rs|
  {
    ReuseIssuesIds(rs, ls, ws);
    if rs != [] {
      var rest := ReuseIssues(rs[1..], ls, ws);
      assert ReuseIds(rs[1..]) == ReuseIds(rs)[1..];
      NoDupTail(ReuseIds(rs));
      ReuseIssuesUnique(rs[1..], ls, ws);
      var head := if rs[0].entry.id !in LeakIds(ls) && rs[0].entry.id !in WeakIds(ws)
        then [Issue(rs[0].entry, ReusedIssue(rs[0].count))] else [];
      assert ReuseIssues(rs, ls, ws) == head + rest;
      IssueIdsConcat(head, rest);
      NoDupConcat(IssueIds(head), IssueIds(rest));
    }
  }

  /** Every weak entry that is not leaked has a weak issue. */
  lemma {:induction false} WeakIssuesCover(ws: seq<WeakItem>, ls: seq<LeakItem>)
    ensures forall x :: x in WeakIds(ws) && x !in LeakIds(ls) ==> x in IssueIds(WeakIssues(ws, ls))
    decreases |ws|
  {
    if ws != [] {
      WeakIssuesCover(ws[1..], ls);
      var head := if ws[0].entry.id !in LeakIds(ls) then [Issue(ws[0].entry, WeakIssue(ws[0].reason))] else [];
      var rest := WeakIssues(ws[1..], ls);
      assert WeakIssues(ws, ls) == head + rest;
      IssueIdsConcat(head, rest);
      assert WeakIds(ws) == [ws[0].entry.id] + WeakIds(ws[1..]);
    }
  }

  /** Every reused entry neither leaked nor weak has a reuse issue. */
  lemma {:induction false} ReuseIssuesCover(rs: seq<ReuseItem>, ls: seq<LeakItem>, ws: seq<WeakItem>)
    ensures forall x :: x in ReuseIds(rs) && x !in LeakIds(ls) && x !in WeakIds(ws) ==> x in IssueIds(ReuseIssues(rs, ls, ws))
    decreases |rs|
  {
    if rs != [] {
      ReuseIssuesCover(rs[1..], ls, ws);
      var head := if rs[0].entry.id !in LeakIds(ls) && rs[0].entry.id !in WeakIds(ws)
        then [Issue(rs[0].entry, ReusedIssue(rs[0].count))] else [];
      var rest := ReuseIssues(rs[1..], ls, ws);
      assert ReuseIssues(rs, ls, ws) == head + rest;
      IssueIdsConcat(head, rest);
      assert ReuseIds(rs) == [rs[0].entry.id] + ReuseIds(rs[1..]);
    }
  }

  /** The pieces of the issue list. */
  lemma IssueListParts(res: Results)
    requires NoDup(LeakIds(res.leaked)) && NoDup(WeakIds(res.weak)) && NoDup(ReuseIds(res.reused))
    ensures IssueIds(IssueList(res)) ==
      LeakIds(res.leaked) + IssueIds(WeakIssues(res.weak, res.leaked)) + IssueIds(ReuseIssues(res.reused, res.leaked, res.weak))
    ensures NoDup(IssueIds(WeakIssues(res.weak, res.leaked)))
    ensures forall x :: x in IssueIds(WeakIssues(res.weak, res.leaked)) ==> x in WeakIds(res.weak) && x !in LeakIds(res.leaked)
    ensures NoDup(IssueIds(ReuseIssues(res.reused, res.leaked, res.weak)))
    ensures forall x :: x in IssueIds(ReuseIssues(res.reused, res.leaked, res.weak)) ==>
      x in ReuseIds(res.reused) && x !in LeakIds(res.leaked) && x !in WeakIds(res.weak)
  {
    var a := LeakIssues(res.leaked);
    var b := WeakIssues(res.weak, res.leaked);
    var c := ReuseIssues(res.reused, res.leaked, res.weak);
    assert IssueIds(a) == LeakIds(res.leaked);
    WeakIssuesUnique(res.weak, res.leaked);
    ReuseIssuesUnique(res.reused, res.leaked, res.weak);
    IssueIdsConcat(a, b);
    IssueIdsConcat(a + b, c);
  }

  /** The issue list names every reported entry at most once. */
  lemma IssueListUnique(res: Results)
    requires NoDup(LeakIds(res.leaked)) && NoDup(WeakIds(res.weak)) && NoDup(ReuseIds(res.reused))
    ensures NoDup(IssueIds(IssueList(res)))
  {
    IssueListParts(res);
    var a := LeakIds(res.leaked);
    var b := IssueIds(WeakIssues(res.weak, res.leaked));
    var c := IssueIds(ReuseIssues(res.reused, res.leaked, res.weak));
    NoDupConcat(a, b);
    NoDupConcat(a + b, c);
  }

  /** ... and names every entry found in any of the three lists. */
  lemma IssueListComplete(res: Results)
    requires NoDup(LeakIds(res.leaked)) && NoDup(WeakIds(res.weak)) && NoDup(ReuseIds(res.reused))
    ensures forall x :: x in IssueIds(IssueList(res)) <==>
      x in LeakIds(res.leaked) || x in WeakIds(res.weak) || x in ReuseIds(res.reused)
  {
    IssueListParts(res);
    WeakIssuesCover(res.weak, res.leaked);
    ReuseIssuesCover(res.reused, res.leaked, res.weak);
  }

  /**
   * An entry found in several lists appears under the most serious of them: leaked, then
   * weak, then reused.
   */
  lemma IssueListPriority(res: Results)
    ensures forall m :: 0 <= m < |IssueList(res)| && IssueList(res)[m].kind.WeakIssue? ==>
      IssueList(res)[m].entry.id !in LeakIds(res.leaked)
    ensures forall m :: 0 <= m < |IssueList(res)| && IssueList(res)[m].kind.ReusedIssue? ==>
      IssueList(res)[m].entry.id !in LeakIds(res.leaked) && IssueList(res)[m].entry.id !in WeakIds(res.weak)
  {
    var a := LeakIssues(res.leaked);
    var b := WeakIssues(res.weak, res.leaked);
    var c := ReuseIssues(res.reused, res.leaked, res.weak);
    var all := IssueList(res);
    WeakIssuesNotLeaked(res.weak, res.leaked);
    ReuseIssuesNotLeakedOrWeak(res.reused, res.leaked, res.weak);
    forall m | 0 <= m < |all|
      ensures !all[m].kind.LeakedIssue? ==> all[m].entry.id !in LeakIds(res.leaked)
      ensures all[m].kind.ReusedIssue? ==> all[m].entry.id !in WeakIds(res.weak)
    {
      if m < |a| {
        assert all[m] == a[m];
      } else if m < |a| + |b| {
        assert all[m] == b[m - |a|];
      } else {
        assert all[m] == c[m - |a| - |b|];
      }
    }
  }

  /**
   * End to end: when the vault's ids are unique, the issue list built from a security check
   * names each entry at most once, and names exactly the entries that are leaked, weak, or
   * share their password with another entry.
   */
  lemma CheckIssues(analyze: Analysis, es: seq<Entry>, leakCount: string -> nat)
    requires NoDup(EntryIds(es))
    ensures NoDup(IssueIds(IssueList(CheckResults(analyze, es, leakCount))))
    ensures forall i :: 0 <= i < |es| ==>
      (es[i].id in IssueIds(IssueList(CheckResults(analyze, es, leakCount))) <==>
         leakCount(es[i].password) > 0 || IsWeak(analyze, es[i]) || Shared(es, i))
  {
    var res := CheckResults(analyze, es, leakCount);
    WeakOfUnique(analyze, es);
    LeakedOfUnique(es, leakCount);
    ReusedSpec(es);
    IssueListUnique(res);
    IssueListComplete(res);
    forall i | 0 <= i < |es|
      ensures es[i].id in IssueIds(IssueList(res)) <==>
        leakCount(es[i].password) > 0 || IsWeak(analyze, es[i]) || Shared(es, i)
    {
      LeakedIff(es, leakCount, i);
      WeakIff(analyze, es, i);
      ReusedIff(es, i);
    }
  }

  lemma {:induction false} LeakedIff(es: seq<Entry>, leakCount: string -> nat, i: int)
    requires NoDup(EntryIds(es)) && 0 <= i < |es|
    ensures es[i].id in LeakIds(LeakedOf(es, leakCount)) <==> leakCount(es[i].password) > 0
  {
    var l := LeakedOf(es, leakCount);
    if es[i].id in LeakIds(l) {
      var m :| 0 <= m < |l| && LeakIds(l)[m] == es[i].id;
      var j :| 0 <= j < |es| && es[j] == l[m].entry;
      SameId(es, i, j);
    }
    if leakCount(es[i].password) > 0 {
      var m :| 0 <= m < |l| && l[m] == LeakItem(es[i], leakCount(es[i].password));
      assert LeakIds(l)[m] == es[i].id;
    }
  }

  lemma {:induction false} WeakIff(analyze: Analysis, es: seq<Entry>, i: int)
    requires NoDup(EntryIds(es)) && 0 <= i < |es|
    ensures es[i].id in WeakIds(WeakOf(analyze, es)) <==> IsWeak(analyze, es[i])
  {
    var w := WeakOf(analyze, es);
    if es[i].id in WeakIds(w) {
      var m :| 0 <= m < |w| && WeakIds(w)[m] == es[i].id;
      var j :| 0 <= j < |es| && es[j] == w[m].entry;
      SameId(es, i, j);
    }
    if IsWeak(analyze, es[i]) {
      var m :| 0 <= m < |w| && w[m] == WeakItem(es[i], analyze(es[i].password).reason);
      assert WeakIds(w)[m] == es[i].id;
    }
  }

  lemma {:induction false} ReusedIff(es: seq<Entry>, i: int)
    requires NoDup(EntryIds(es)) && 0 <= i < |es|
    ensures es[i].id in ReuseIds(ReusedOf(es)) <==> Shared(es, i)
  {
    var r := ReusedOf(es);
    ReusedIffShared(es, i);
    if es[i].id in ReuseIds(r) {
      var m :| 0 <= m < |r| && ReuseIds(r)[m] == es[i].id;
      ReusedEntriesIn(es, m);
      var j :| 0 <= j < |es| && es[j] == r[m].entry;
      SameId(es, i, j);
    }
    if Shared(es, i) {
      var m :| 0 <= m < |r| && r[m].entry == es[i];
      assert ReuseIds(r)[m] == es[i].id;
    }
  }

  // ---------------------------------------------------------------------------
  // The password dictionary as written: a plain object literal

  /**
   * The property names an empty object literal inherits from Object.prototype. Reading one of
   * them from `passwordCounts` yields a function (or, for `__proto__`, the prototype object):
   * a truthy value without a `push` method.
   */
  const InheritedNames: set<string> := {
    "constructor", "__proto__", "hasOwnProperty", "isPrototypeOf", "propertyIsEnumerable",
    "toString", "toLocaleString", "valueOf",
    "__defineGetter__", "__defineSetter__", "__lookupGetter__", "__lookupSetter__"}

  /** What `passwordCounts[k]` yields: an own array, an inherited member, or undefined. */
  datatype Slot = Own(entries: seq<Entry>) | Inherited | Missing

  function Lookup(counts: map<string, seq<Entry>>, k: string): Slot {
    if k in counts then Own(counts[k]) else if k in InheritedNames then Inherited else Missing
  }

  /**
   * The first loop's grouping as written; None stands for the TypeError that `push` on an
   * inherited member throws, which abandons the whole check.
   */
  function GroupAsWritten(es: seq<Entry>): Option<map<string, seq<Entry>>>
    decreases |es|
  {
    if es == [] then Some(map[])
    else
      var e := es[|es| - 1];
      match GroupAsWritten(es[..|es| - 1])
      case None => None
      case Some(counts) =>
        match Lookup(counts, e.password)
        case Own(entries) => Some(counts[e.password := entries + [e]])
        case Missing => Some(counts[e.password := [e]])
        case Inherited => None
  }

  /** A single entry whose password is "constructor" makes the check throw. */
  lemma ConstructorPasswordAborts()
    ensures GroupAsWritten([Entry("1", "Shop", "me", "constructor", "")]).None?
  {
    var es := [Entry("1", "Shop", "me", "constructor", "")];
    assert es[..0] == [];
  }

  /** Some entry of the list has password `k`. */
  predicate Occurs(es: seq<Entry>, k: string) {
    exists i :: 0 <= i < |es| && es[i].password == k
  }

  /** The passwords of a list with one more entry: the earlier ones and the new one. */
  lemma OccursAppend(init: seq<Entry>, e: Entry, k: string)
    ensures Occurs(init + [e], k) <==> Occurs(init, k) || e.password == k
  {
    var es := init + [e];
    if Occurs(init, k) {
      var i :| 0 <= i < |init| && init[i].password == k;
      assert es[i].password == k;
    }
    if e.password == k {
      assert es[|init|].password == k;
    }
    if Occurs(es, k) && e.password != k {
      var i :| 0 <= i < |es| && es[i].password == k;
      assert init[i].password == k;
    }
  }

  /**
   * Away from the inherited names the object behaves as the dictionary ClassifyAndGroup
   * uses: it maps each password seen to its entries, so the corrected model is the program's
   * behaviour on every other input.
   */
  lemma {:induction false} GroupAsWrittenElsewhere(es: seq<Entry>)
    requires forall i :: 0 <= i < |es| ==> es[i].password !in InheritedNames
    ensures GroupAsWritten(es).Some?
    ensures forall k :: k in GroupAsWritten(es).value <==> exists i :: 0 <= i < |es| && es[i].password == k
    ensures forall k :: k in GroupAsWritten(es).value ==> GroupAsWritten(es).value[k] == Group(es, k)
    decreases |es|
  {
    if es != [] {
      var init := es[..|es| - 1];
      var e := es[|es| - 1];
      assert es == init + [e];
      GroupAsWrittenElsewhere(init);
      var counts := GroupAsWritten(init).value;
      if e.password in counts {
        assert GroupAsWritten(es) == Some(counts[e.password := counts[e.password] + [e]]);
      } else {
        assert GroupAsWritten(es) == Some(counts[e.password := [e]]);
        GroupEmpty(init, e.password);
      }
      forall k | k in GroupAsWritten(es).value ensures GroupAsWritten(es).value[k] == Group(es, k) {
        GroupAppend(init, e, k);
      }
      forall k ensures k in GroupAsWritten(es).value <==> Occurs(es, k) {
        OccursAppend(init, e, k);
      }
    }
  }
}
