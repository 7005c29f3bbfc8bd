// Garbage collections that are cut: which of them leave a ledger that claims more than the bucket
// holds, and why the next collection need not repair that.
module PublishingCollecting {
  import opened Wrappers
  import opened Publishing
  import opened PublishingSafety
  import opened PublishingRuns
  import opened PublishingBudget

  // The keys whose remote deletion comes before the cut.
  function Deleted(garbage: seq<Key>, cut: nat): set<Key> {
    Copied(garbage[..if cut < |garbage| then cut else |garbage|])
  }

  function Unlinked(garbage: seq<Key>, cut: nat): set<Key>
    requires cut <= 2 * |garbage|
  {
    if cut < |garbage| then {} else Copied(garbage[..cut - |garbage|])
  }

  lemma {:induction false} DeletionsCut(keys: seq<Key>, n: nat)
    requires n <= |keys|
    ensures |DeleteRemotes(keys)| == |DeleteLocals(keys)| == |keys|
    ensures DeleteRemotes(keys)[..n] == DeleteRemotes(keys[..n]) && DeleteLocals(keys)[..n] == DeleteLocals(keys[..n])
    decreases |keys|
  {
    if keys != [] {
      DeletionsCut(keys[1..], if n == 0 then 0 else n - 1);
      if n > 0 {
        assert keys[..n][0] == keys[0] && keys[..n][1..] == keys[1..][..n - 1];
      }
    }
  }

  lemma CollectSize(c: Content, s: Site, recent: set<Key>, garbage: seq<Key>)
    requires Inv(c, s) && Collect(c, s, recent, garbage) != []
    ensures |Collect(c, s, recent, garbage)| == 2 * |garbage| + if s.active.Some? then 1 else 0
    ensures DeleteRemotes(garbage) + DeleteLocals(garbage) <= Collect(c, s, recent, garbage)
    ensures |DeleteRemotes(garbage)| == |DeleteLocals(garbage)| == |garbage|
    ensures Guarded(c, s, Referenced(c, s, recent)) && forall k | k in garbage :: k !in Referenced(c, s, recent)
  {
    AllReadable(c, s);
    DeletionsKeep(c, s, recent, garbage);
    DeletionsCut(garbage, |garbage|);
  }

  // A collection cut among its deletions.
  lemma CollectCut(c: Content, s: Site, recent: set<Key>, garbage: seq<Key>, cut: nat)
    requires Inv(c, s) && Collect(c, s, recent, garbage) != [] && cut <= 2 * |garbage|
    ensures cut <= |Collect(c, s, recent, garbage)|
    ensures Do(s, Collect(c, s, recent, garbage)[..cut])
            == s.(remote := s.remote - Deleted(garbage, cut), local := s.local - Unlinked(garbage, cut))
  {
    CollectSize(c, s, recent, garbage);
    var deletions := DeleteRemotes(garbage) + DeleteLocals(garbage);
    DeletionsCutAt(c, s, garbage, cut, Referenced(c, s, recent));
    assert Collect(c, s, recent, garbage)[..cut] == deletions[..cut];
  }

  lemma DeletionsCutAt(c: Content, s: Site, garbage: seq<Key>, cut: nat, keep: set<Key>)
    requires Inv(c, s) && Guarded(c, s, keep) && cut <= 2 * |garbage| && forall k | k in garbage :: k !in keep
    ensures cut <= |DeleteRemotes(garbage) + DeleteLocals(garbage)|
    ensures Do(s, (DeleteRemotes(garbage) + DeleteLocals(garbage))[..cut])
            == s.(remote := s.remote - Deleted(garbage, cut), local := s.local - Unlinked(garbage, cut))
  {
    DeletionsCut(garbage, |garbage|);
    var r, l := DeleteRemotes(garbage), DeleteLocals(garbage);
    if cut < |garbage| {
      DeletionsCut(garbage, cut);
      assert (r + l)[..cut] == r[..cut];
      DeleteRemotesKeep(c, s, garbage[..cut], keep);
      assert s.local - {} == s.local;
    } else {
      assert (r + l)[..cut] == r + l[..cut - |garbage|];
      UnlinksCut(c, s, garbage, cut - |garbage|, keep);
      assert garbage[..|garbage|] == garbage;
    }
  }

  lemma UnlinksCut(c: Content, s: Site, garbage: seq<Key>, n: nat, keep: set<Key>)
    requires Inv(c, s) && Guarded(c, s, keep) && n <= |garbage| && forall k | k in garbage :: k !in keep
    ensures n <= |DeleteLocals(garbage)|
    ensures Do(s, DeleteRemotes(garbage) + DeleteLocals(garbage)[..n])
            == s.(remote := s.remote - Copied(garbage), local := s.local - Copied(garbage[..n]))
  {
    DeletionsCut(garbage, n);
    DeleteRemotesKeep(c, s, garbage, keep);
    AlongEnd(c, s, DeleteRemotes(garbage));
    DeleteLocalsKeep(c, Do(s, DeleteRemotes(garbage)), garbage[..n], keep);
    DoJoin(s, DeleteRemotes(garbage), DeleteLocals(garbage[..n]));
  }

  // ------------------------------------------------------------------ which cuts do harm

  // It ends, or there is no ledger to be wrong, or what is gone from the bucket is no more than it held
  // beyond what the ledger says.
  ghost predicate HarmlessCut(c: Content, s: Site, recent: set<Key>, garbage: seq<Key>, cut: nat) {
    || cut >= |Collect(c, s, recent, garbage)| || s.active.None?
    || (var gone, unseen := Deleted(garbage, cut) * s.remote, Beyond(c, s.active.value, s.remote);
        Weight(c, gone) <= unseen.0 && |gone| <= unseen.1)
  }

  // Wherever a collection is cut, the ledgers stay within the bucket exactly if the cut is harmless.
  lemma CollectCutIff(c: Content, s: Site, recent: set<Key>, garbage: seq<Key>, cut: nat)
    requires Inv(c, s) && Under(c, s) && cut <= |Collect(c, s, recent, garbage)|
    ensures Under(c, Do(s, Collect(c, s, recent, garbage)[..cut])) <==> HarmlessCut(c, s, recent, garbage, cut)
  {
    var ws := Collect(c, s, recent, garbage);
    assert ws[..|ws|] == ws;
    CollectMeasures(c, s, recent, garbage);
    if ws != [] && cut < |ws| {
      CollectSize(c, s, recent, garbage);
      CollectCut(c, s, recent, garbage, cut);
      DeletedUnderIff(c, s, Do(s, ws[..cut]), Deleted(garbage, cut));
    }
  }

  // A settled site that lost some objects.
  lemma DeletedUnderIff(c: Content, s: Site, t: Site, deleted: set<Key>)
    requires s.pending.None? && s.marker.None? && t == s.(remote := s.remote - deleted, local := t.local)
    ensures Under(c, t) <==>
              s.active.None?
              || (var gone, unseen := deleted * s.remote, Beyond(c, s.active.value, s.remote);
                  Weight(c, gone) <= unseen.0 && |gone| <= unseen.1)
    ensures s.active.Some? && AllExact(c, s) ==>
              (Under(c, t) <==> deleted !! s.remote) && (AllExact(c, t) <==> deleted !! s.remote)
  {
    WeightLess(c, s.remote, deleted);
    assert |deleted * s.remote| == 0 <==> deleted * s.remote == {};
  }

  lemma WeightLess(c: Content, remote: set<Key>, deleted: set<Key>)
    ensures Weight(c, remote - deleted) == Weight(c, remote) - Weight(c, deleted * remote)
    ensures |remote - deleted| == |remote| - |deleted * remote|
  {
    assert remote == deleted * remote + (remote - deleted);
    WeightUnion(c, deleted * remote, remote - deleted);
  }

  // From exact books: exactly if it ends, or nothing it deleted was in the bucket.
  lemma CollectCutExactIff(c: Content, s: Site, recent: set<Key>, garbage: seq<Key>, cut: nat)
    requires Inv(c, s) && AllExact(c, s) && s.active.Some? && cut <= |Collect(c, s, recent, garbage)|
    ensures var t := Do(s, Collect(c, s, recent, garbage)[..cut]);
            var harmless := cut == |Collect(c, s, recent, garbage)| || Deleted(garbage, cut) !! s.remote;
            (Under(c, t) <==> harmless) && (AllExact(c, t) <==> harmless)
  {
    var ws := Collect(c, s, recent, garbage);
    assert ws[..|ws|] == ws;
    CollectMeasures(c, s, recent, garbage);
    if ws != [] && cut < |ws| {
      CollectSize(c, s, recent, garbage);
      CollectCut(c, s, recent, garbage, cut);
      DeletedUnderIff(c, s, Do(s, ws[..cut]), Deleted(garbage, cut));
    }
  }

  // ------------------------------------------------------------------ what comes after

  // Cut after its last unlink and before its ledger, a collection leaves none of its garbage on disk, so
  // no later one deletes any of it or measures because of it: the ledger stays as it is until other
  // files have become garbage.
  lemma UnmeasuredStays(c: Content, s: Site, recent: set<Key>, garbage: seq<Key>, later: set<Key>, again: seq<Key>)
    requires Inv(c, s) && s.active.Some? && Collect(c, s, recent, garbage) != []
    requires Copied(again) <= Copied(garbage)
    ensures var ws := Collect(c, s, recent, garbage);
            var t := Do(s, ws[..|ws| - 1]);
            t.active == s.active && Collect(c, t, later, again) == []
  {
    CollectSize(c, s, recent, garbage);
    CollectCut(c, s, recent, garbage, 2 * |garbage|);
    assert garbage[..|garbage|] == garbage;
    if again != [] {
      assert again[0] in Copied(again);
    }
  }

  // Such a site: one old release is garbage beside the live one, and the books are exact. Cut there, the
  // ledger claims an object that is gone.
  lemma CutCollectionOverclaims() returns (c: Content, s: Site)
    ensures Inv(c, s) && AllExact(c, s)
    ensures |Collect(c, s, {}, ["old"])| == 3
    ensures !Under(c, Do(s, Collect(c, s, {}, ["old"])[..2]))
  {
    c := Content(k => {}, k => 0);
    s := Site({"live", "old"}, Some("live"), {"live", "old"}, Some("live"), Some(Ledger("live", None, 0, 3)), None,
              None, None, {"live"});
    WeightWithout(c, s.remote, "old");
    WeightWithout(c, {"live"}, "live");
    assert s.remote - {"old"} == {"live"} && {"live"} - {"live"} == {};
    OldIsGarbage(c, s);
    CollectSize(c, s, {}, ["old"]);
    CollectCutExactIff(c, s, {}, ["old"], 2);
    assert "old" in Deleted(["old"], 2) by {
      assert ["old"][..1] == ["old"];
    }
  }

  lemma OldIsGarbage(c: Content, s: Site)
    requires Inv(c, s) && s.marker.None? && s.pending.None? && s.current == Some("live") && "old" in s.local
    requires s.active.Some? && s.active.value.release == "live" && s.active.value.previous.None?
    requires "old" !in Objects(c, "live")
    ensures Collect(c, s, {}, ["old"]) != []
  {
    AllReadable(c, s);
    assert KeptReleases(s, {}) == {"live"};
    assert IsGarbage(c, s, {}, ["old"]);
    assert DeleteRemotes(["old"]) != [];
  }
}
