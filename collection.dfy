/** The top-level collection: the list of protocol files it gathers from the
    parsed documents, and the sort that orders that list in place. */
module Collection {
  import opened Wrappers
  import opened Text
  import opened Model
  import opened Ordering
  import opened Sorting
  import opened Builder

  /** `ProtocolCollection`: common fields of its own (never filled by the
      builder) and the list of protocol files. */
  class ProtocolCollection {
    var common: CommonFields
    var protocolFiles: seq<ProtocolFile>

    constructor ()
      ensures common == EMPTY_COMMON && protocolFiles == []
    {
      common := EMPTY_COMMON;
      protocolFiles := [];
    }

    /** `sort_protocol_files`: reorders `protocolFiles` in place by the file
        comparator, stably, as `list.sort` does. */
    method SortProtocolFiles()
      modifies this
      ensures protocolFiles == SortBy(old(protocolFiles), CompareFiles)
      ensures multiset(protocolFiles) == multiset(old(protocolFiles))
      ensures Sorted(protocolFiles, CompareFiles)
      ensures forall f :: LevelWith(protocolFiles, f, CompareFiles) == LevelWith(old(protocolFiles), f, CompareFiles)
      ensures common == old(common)
    {
      var before := protocolFiles;
      CompareFilesIsTotalPreorder();
      protocolFiles := SortBy(protocolFiles, CompareFiles);
      SortPermutes(before, CompareFiles);
      SortIsSorted(before, CompareFiles);
      forall f ensures LevelWith(protocolFiles, f, CompareFiles) == LevelWith(before, f, CompareFiles) {
        SortIsStable(before, CompareFiles, f);
      }
    }
  }

  /** `generate_ProtocolCollection`: a fresh collection holding, in document
      order, the file of every document that yields one. */
  method GenerateProtocolCollection(docs: seq<ParsedInfo>) returns (ret: ProtocolCollection)
    ensures fresh(ret)
    ensures ret.common == EMPTY_COMMON
    ensures ret.protocolFiles == CollectFiles(docs)
  {
    ret := new ProtocolCollection();
    var i := 0;
    while i < |docs|
      invariant 0 <= i <= |docs|
      invariant ret.common == EMPTY_COMMON
      invariant ret.protocolFiles == CollectFiles(docs[..i])
    {
      var pf := GenerateProtocolFileForParsed(docs[i]);
      assert docs[..i + 1][..i] == docs[..i] && docs[..i + 1][i] == docs[i];
      if pf.Some? {
        ret.protocolFiles := ret.protocolFiles + [pf.value];
      }
      i := i + 1;
    }
    assert docs[..i] == docs;
  }

  // ---------------------------------------------------------------------
  // What the sort promises for protocol files

  /** Sorting the files keeps every file, orders them by the comparator, keeps
      files that compare level in their original order, and changes nothing
      when repeated. */
  lemma SortFilesLaws(files: seq<ProtocolFile>)
    ensures multiset(SortBy(files, CompareFiles)) == multiset(files)
    ensures Sorted(SortBy(files, CompareFiles), CompareFiles)
    ensures forall f :: LevelWith(SortBy(files, CompareFiles), f, CompareFiles) == LevelWith(files, f, CompareFiles)
    ensures SortBy(SortBy(files, CompareFiles), CompareFiles) == SortBy(files, CompareFiles)
  {
    CompareFilesIsTotalPreorder();
    SortPermutes(files, CompareFiles);
    SortIsSorted(files, CompareFiles);
    forall f ensures LevelWith(SortBy(files, CompareFiles), f, CompareFiles) == LevelWith(files, f, CompareFiles) {
      SortIsStable(files, CompareFiles, f);
    }
    SortIdempotent(files, CompareFiles);
  }

  /** In a sorted file list, every file named in `PREDEFINED_ORDER` comes
      before every file that is not, and in the order of its position there;
      the remaining files appear in non-decreasing tier order, and within one
      tier by non-decreasing name. */
  lemma SortedFileLayout(s: seq<ProtocolFile>)
    requires Sorted(s, CompareFiles)
    ensures forall i, j :: 0 <= i < j < |s| && s[j].basename in PREDEFINED_ORDER ==> s[i].basename in PREDEFINED_ORDER
    ensures forall i, j :: 0 <= i < j < |s| && s[i].basename in PREDEFINED_ORDER && s[j].basename in PREDEFINED_ORDER ==>
      IndexOf(PREDEFINED_ORDER, s[i].basename) <= IndexOf(PREDEFINED_ORDER, s[j].basename)
    ensures forall i, j :: 0 <= i < j < |s| && s[i].basename !in PREDEFINED_ORDER && s[j].basename !in PREDEFINED_ORDER ==>
      Tier(s[i]) <= Tier(s[j])
    ensures forall i, j ::
      (0 <= i < j < |s| && s[i].basename !in PREDEFINED_ORDER && s[j].basename !in PREDEFINED_ORDER && Tier(s[i]) == Tier(s[j])) ==>
        s[i].basename == s[j].basename || StrLess(s[i].basename, s[j].basename)
  {
    forall i, j | 0 <= i < j < |s| && s[j].basename in PREDEFINED_ORDER
      ensures s[i].basename in PREDEFINED_ORDER
    {
      if s[i].basename !in PREDEFINED_ORDER {
        PredefinedFirst(s[j], s[i]);
        assert false;
      }
    }
    forall i, j | 0 <= i < j < |s| && s[i].basename !in PREDEFINED_ORDER && s[j].basename !in PREDEFINED_ORDER
      ensures Tier(s[i]) <= Tier(s[j])
      ensures Tier(s[i]) == Tier(s[j]) ==> s[i].basename == s[j].basename || StrLess(s[i].basename, s[j].basename)
    {
      TierThenName(s[j], s[i]);
      TierThenName(s[i], s[j]);
    }
  }

  /** Two files, one named in `PREDEFINED_ORDER`: it sorts first whichever
      order they arrive in and whatever their directories say. */
  lemma PredefinedFileSortsFirst(w: ProtocolFile, g: ProtocolFile)
    requires w.basename in PREDEFINED_ORDER && g.basename !in PREDEFINED_ORDER
    ensures SortBy([g, w], CompareFiles) == [w, g]
    ensures SortBy([w, g], CompareFiles) == [w, g]
  {
    PredefinedFirst(w, g);
    SortSnoc([], g, CompareFiles);
    SortSnoc([], w, CompareFiles);
    SortSnoc([g], w, CompareFiles);
    SortSnoc([w], g, CompareFiles);
    assert [] + [g] == [g] && [] + [w] == [w] && [g] + [w] == [g, w] && [w] + [g] == [w, g];
    assert Insert(g, [w], CompareFiles) == [w] + Insert(g, [], CompareFiles);
  }

  /** Three unlisted files arriving as unstable, stable, staging leave the
      sort as stable, staging, unstable, whatever their names. */
  lemma TiersSortInPrecedenceOrder(u: ProtocolFile, s: ProtocolFile, g: ProtocolFile)
    requires u.basename !in PREDEFINED_ORDER && s.basename !in PREDEFINED_ORDER && g.basename !in PREDEFINED_ORDER
    requires u.CalcStability() == "unstable" && s.CalcStability() == "stable" && g.CalcStability() == "staging"
    ensures SortBy([u, s, g], CompareFiles) == [s, g, u]
  {
    assert Tier(s) == 0 && Tier(g) == 1 && Tier(u) == 2;
    TierThenName(s, u);
    TierThenName(g, s);
    TierThenName(g, u);
    SortSnoc([], u, CompareFiles);
    SortSnoc([u], s, CompareFiles);
    SortSnoc([u, s], g, CompareFiles);
    assert [] + [u] == [u] && [u] + [s] == [u, s] && [u, s] + [g] == [u, s, g];
    assert Insert(s, [u], CompareFiles) == [s, u];
    assert Insert(g, [u], CompareFiles) == [g, u];
    assert Insert(g, [s, u], CompareFiles) == [s] + Insert(g, [u], CompareFiles);
  }
}
