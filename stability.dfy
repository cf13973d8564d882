/** What the stability classification promises. */
module Stability {
  import opened Text
  import opened Model

  predicate InAllowList(basename: string) {
    basename in KNOWN_STABLE || basename in KNOWN_STAGING || basename in KNOWN_UNSTABLE
  }

  /** The file-name allow-lists win over the directory: `wayland.xml` is
      `stable` in every directory. */
  lemma WaylandIsStable(dirname: string, protocols: seq<Protocol>)
    ensures ProtocolFile("wayland.xml", dirname, protocols).CalcStability() == "stable"
  {
  }

  /** Past the allow-lists the tier is decided by whole `/`-separated segments
      of the directory, `stable` taking precedence over `unstable` and
      `unstable` over `staging`. */
  lemma DirectorySegments(f: ProtocolFile)
    requires !InAllowList(f.basename)
    ensures var r := f.CalcStability();
      && (r == "stable" <==> IsSegmentOf("stable", f.dirname, '/'))
      && (r == "unstable" <==> !IsSegmentOf("stable", f.dirname, '/') && IsSegmentOf("unstable", f.dirname, '/'))
      && (r == "staging" <==>
            && !IsSegmentOf("stable", f.dirname, '/')
            && !IsSegmentOf("unstable", f.dirname, '/')
            && IsSegmentOf("staging", f.dirname, '/'))
      && (r == "unknown" <==>
            && !IsSegmentOf("stable", f.dirname, '/')
            && !IsSegmentOf("unstable", f.dirname, '/')
            && !IsSegmentOf("staging", f.dirname, '/'))
  {
    SplitMembership("stable", f.dirname, '/');
    SplitMembership("unstable", f.dirname, '/');
    SplitMembership("staging", f.dirname, '/');
  }

  /** A directory with both an `unstable` and a `staging` segment (and no
      `stable` one) classifies as `unstable`. */
  lemma UnstableBeforeStaging(f: ProtocolFile)
    requires !InAllowList(f.basename)
    requires !IsSegmentOf("stable", f.dirname, '/')
    requires IsSegmentOf("unstable", f.dirname, '/') && IsSegmentOf("staging", f.dirname, '/')
    ensures f.CalcStability() == "unstable"
  {
    DirectorySegments(f);
  }

  /** A segment that merely starts with a tier word, such as `unstable-x`,
      `stable2` or `staging_old`, matches no tier. */
  lemma SuffixedTierWordIsUnknown(f: ProtocolFile, word: string, suffix: string)
    requires !InAllowList(f.basename)
    requires word == "stable" || word == "unstable" || word == "staging"
    requires suffix != [] && '/' !in suffix && f.dirname == word + suffix
    ensures f.CalcStability() == "unknown"
  {
    assert '/' !in word;
    var d := f.dirname;
    assert d[0] == word[0] && d[3] == word[3] && |d| > |word|;
    assert d != "stable" && d != "unstable" && d != "staging";
    LoneSegmentIsUnknown(f);
  }

  /** A directory with no `/` that is not itself a tier word matches no tier. */
  lemma LoneSegmentIsUnknown(f: ProtocolFile)
    requires !InAllowList(f.basename)
    requires '/' !in f.dirname
    requires f.dirname != "stable" && f.dirname != "unstable" && f.dirname != "staging"
    ensures f.CalcStability() == "unknown"
  {
    SplitNoSep(f.dirname, '/');
  }

  /** A tier word is found as a whole segment wherever it sits in the path,
      e.g. `x/staging/y`. */
  lemma InnerSegmentIsFound(f: ProtocolFile, a: string, c: string)
    requires !InAllowList(f.basename)
    requires '/' !in a && '/' !in c
    requires a !in ["stable", "unstable"] && c !in ["stable", "unstable"]
    requires f.dirname == a + "/staging/" + c
    ensures f.CalcStability() == "staging"
  {
    var b := "staging";
    assert f.dirname == a + ['/'] + b + ['/'] + c;
    SplitThree(a, b, c, '/');
    assert "stable" != b && "unstable" != b;
    assert Split(f.dirname, '/') == [a, b, c];
  }
}
