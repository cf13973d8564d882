/** The three-way comparator that orders protocol files before rendering. */
module Ordering {
  import opened Text
  import opened Model
  import opened Sorting

  /** The position of the file's tier in `STABILITY_ORDER`; the lookup always
      succeeds because the tier is always one of its entries. */
  function Tier(f: ProtocolFile): (t: nat)
    ensures t < |STABILITY_ORDER| && STABILITY_ORDER[t] == f.CalcStability()
  {
    IndexOf(STABILITY_ORDER, f.CalcStability())
  }

  /** `_protocol_files_sorter(v1, v2)`: `-1`, `0` or `1` as `v1` sorts before,
      level with, or after `v2`. Files named in `PREDEFINED_ORDER` come first,
      by their position there; the others follow by tier, then by file name. */
  function CompareFiles(v1: ProtocolFile, v2: ProtocolFile): (r: int)
    ensures -1 <= r <= 1
  {
    if v1.basename in PREDEFINED_ORDER && v2.basename in PREDEFINED_ORDER then
      var i1 := IndexOf(PREDEFINED_ORDER, v1.basename);
      var i2 := IndexOf(PREDEFINED_ORDER, v2.basename);
      if i1 == i2 then 0
      else if i1 > i2 then 1
      else -1
    else if v1.basename in PREDEFINED_ORDER && v2.basename !in PREDEFINED_ORDER then -1
    else if v1.basename !in PREDEFINED_ORDER && v2.basename in PREDEFINED_ORDER then 1
    else
      var s1 := Tier(v1);
      var s2 := Tier(v2);
      if s1 > s2 then 1
      else if s1 < s2 then -1
      else if StrLess(v2.basename, v1.basename) then 1
      else if StrLess(v1.basename, v2.basename) then -1
      else 0
  }

  // ---------------------------------------------------------------------
  // An independent description of the same order: a sort key and a strict
  // lexicographic order on keys.

  /** A listed file is keyed by its position in `PREDEFINED_ORDER`; every
      other file by its tier and its name, ranked behind all listed files. */
  datatype SortKey = Listed(index: nat) | Ranked(tier: nat, name: string)

  function KeyOf(f: ProtocolFile): SortKey {
    if f.basename in PREDEFINED_ORDER then Listed(IndexOf(PREDEFINED_ORDER, f.basename))
    else Ranked(Tier(f), f.basename)
  }

  predicate KeyLess(k1: SortKey, k2: SortKey) {
    match (k1, k2)
    case (Listed(i), Listed(j)) => i < j
    case (Listed(_), Ranked(_, _)) => true
    case (Ranked(_, _), Listed(_)) => false
    case (Ranked(t1, n1), Ranked(t2, n2)) => t1 < t2 || (t1 == t2 && StrLess(n1, n2))
  }

  lemma KeyLessIrreflexive(k: SortKey)
    ensures !KeyLess(k, k)
  {
    if k.Ranked? {
      StrLessIrreflexive(k.name);
    }
  }

  lemma KeyLessTransitive(k1: SortKey, k2: SortKey, k3: SortKey)
    requires KeyLess(k1, k2) && KeyLess(k2, k3)
    ensures KeyLess(k1, k3)
  {
    if k1.Ranked? && k2.Ranked? && k3.Ranked? && k1.tier == k2.tier == k3.tier {
      StrLessTransitive(k1.name, k2.name, k3.name);
    }
  }

  lemma KeyLessTotal(k1: SortKey, k2: SortKey)
    ensures k1 == k2 || KeyLess(k1, k2) || KeyLess(k2, k1)
  {
    if k1.Ranked? && k2.Ranked? {
      StrLessTotal(k1.name, k2.name);
    }
  }

  lemma KeyLessAsymmetric(k1: SortKey, k2: SortKey)
    ensures !(KeyLess(k1, k2) && KeyLess(k2, k1))
  {
    if k1.Ranked? && k2.Ranked? {
      StrLessAsymmetric(k1.name, k2.name);
    }
  }

  /** The comparator is exactly the comparison of sort keys. */
  lemma CompareIsKeyOrder(a: ProtocolFile, b: ProtocolFile)
    ensures CompareFiles(a, b) < 0 <==> KeyLess(KeyOf(a), KeyOf(b))
    ensures CompareFiles(a, b) == 0 <==> KeyOf(a) == KeyOf(b)
    ensures CompareFiles(a, b) > 0 <==> KeyLess(KeyOf(b), KeyOf(a))
  {
    StrLessTotal(a.basename, b.basename);
    StrLessAsymmetric(a.basename, b.basename);
    StrLessIrreflexive(a.basename);
  }

  // ---------------------------------------------------------------------
  // Laws of the comparator

  lemma CompareReflexive(a: ProtocolFile)
    ensures CompareFiles(a, a) == 0
  {
    CompareIsKeyOrder(a, a);
  }

  /** Swapping the arguments negates the result. */
  lemma CompareAntisymmetric(a: ProtocolFile, b: ProtocolFile)
    ensures CompareFiles(a, b) == -CompareFiles(b, a)
  {
    CompareIsKeyOrder(a, b);
    CompareIsKeyOrder(b, a);
    KeyLessAsymmetric(KeyOf(a), KeyOf(b));
    KeyLessIrreflexive(KeyOf(a));
  }

  /** "Not after" is transitive, and strictly so when either step is strict. */
  lemma CompareTransitive(a: ProtocolFile, b: ProtocolFile, c: ProtocolFile)
    requires CompareFiles(a, b) <= 0 && CompareFiles(b, c) <= 0
    ensures CompareFiles(a, c) <= 0
    ensures CompareFiles(a, b) < 0 || CompareFiles(b, c) < 0 ==> CompareFiles(a, c) < 0
  {
    CompareIsKeyOrder(a, b);
    CompareIsKeyOrder(b, c);
    CompareIsKeyOrder(a, c);
    var ka, kb, kc := KeyOf(a), KeyOf(b), KeyOf(c);
    if KeyLess(ka, kb) && KeyLess(kb, kc) {
      KeyLessTransitive(ka, kb, kc);
    }
  }

  /** A file named in `PREDEFINED_ORDER` sorts before every file that is not,
      whatever their tiers. */
  lemma PredefinedFirst(a: ProtocolFile, b: ProtocolFile)
    requires a.basename in PREDEFINED_ORDER && b.basename !in PREDEFINED_ORDER
    ensures CompareFiles(a, b) == -1 && CompareFiles(b, a) == 1
  {
  }

  /** Between two unlisted files the lower tier sorts first, equal tiers fall
      back to ascending file name, and they are level exactly when tier and
      name are both equal. */
  lemma TierThenName(a: ProtocolFile, b: ProtocolFile)
    requires a.basename !in PREDEFINED_ORDER && b.basename !in PREDEFINED_ORDER
    ensures Tier(a) < Tier(b) ==> CompareFiles(a, b) == -1
    ensures Tier(a) == Tier(b) ==> (CompareFiles(a, b) == -1 <==> StrLess(a.basename, b.basename))
    ensures CompareFiles(a, b) == 0 <==> Tier(a) == Tier(b) && a.basename == b.basename
  {
    StrLessTotal(a.basename, b.basename);
    StrLessAsymmetric(a.basename, b.basename);
    StrLessIrreflexive(a.basename);
  }

  /** The comparator meets the laws a sort relies on. */
  lemma CompareFilesIsTotalPreorder()
    ensures IsTotalPreorder(CompareFiles)
  {
    forall a, b ensures CompareFiles(a, b) == -CompareFiles(b, a) {
      CompareAntisymmetric(a, b);
    }
    forall a, b, c | CompareFiles(a, b) <= 0 && CompareFiles(b, c) <= 0
      ensures CompareFiles(a, c) <= 0
    {
      CompareTransitive(a, b, c);
    }
  }
}
