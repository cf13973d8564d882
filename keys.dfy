/** The key under which a parsed document is filed, and the rule that drops
    documents filed under a `tests` directory. */
module Keys {
  import opened Text

  /** `'{}/{}'.format(dirname, basename)`. */
  function KeyName(dirname: string, basename: string): string {
    dirname + "/" + basename
  }

  /** A key is dropped when one of its `/`-separated segments is exactly `tests`. */
  predicate IsExcludedKey(key: string) {
    "tests" in Split(key, '/')
  }

  /** Exclusion is whole-segment occurrence of `tests` in the key. */
  lemma ExcludedIsSegment(key: string)
    ensures IsExcludedKey(key) <==> IsSegmentOf("tests", key, '/')
  {
    SplitMembership("tests", key, '/');
  }

  /** A document is dropped exactly when its directory has a `tests` segment
      or the file itself is named `tests`. */
  lemma ExcludedKeyName(dirname: string, basename: string)
    requires '/' !in basename
    ensures IsExcludedKey(KeyName(dirname, basename)) <==> "tests" in Split(dirname, '/') || basename == "tests"
  {
    assert KeyName(dirname, basename) == dirname + ['/'] + basename;
    SplitConcat(dirname, basename, '/');
    SplitNoSep(basename, '/');
  }
}
