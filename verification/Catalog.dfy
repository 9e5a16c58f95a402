/** The match of the files found on disk with the files of a manifest. */
module Catalogs {
  import opened Manifests

  datatype FileFact = FileFact(name: string, size: Int64, sha256: string, regular: bool)

  /** What identifies a file's content: compared between manifest and disk. */
  datatype Content = Content(name: string, size: Int64, sha256: string)

  function Expected(files: seq<ManifestFile>): (contents: seq<Content>)
    ensures |contents| == |files|
  {
    seq(|files|, i requires 0 <= i < |files| => Content(files[i].name, files[i].size, files[i].sha256))
  }

  function Actual(facts: seq<FileFact>): (contents: seq<Content>)
    ensures |contents| == |facts|
  {
    seq(|facts|, i requires 0 <= i < |facts| => Content(facts[i].name, facts[i].size, facts[i].sha256))
  }

  predicate DistinctContents(contents: seq<Content>) {
    forall i, j :: 0 <= i < j < |contents| ==> contents[i].name != contents[j].name
  }

  // ------------------------------------------------------------ pigeonhole

  lemma {:induction false} DistinctAppearOnce(contents: seq<Content>, c: Content)
    requires DistinctContents(contents)
    ensures multiset(contents)[c] == if c in contents then 1 else 0
  {
    if contents != [] {
      var init, last := contents[..|contents| - 1], contents[|contents| - 1];
      assert contents == init + [last];
      DistinctAppearOnce(init, c);
    }
  }

  /** Distinct expected contents, all present among as many distinct actual
      ones: there is no room for anything else. */
  lemma {:induction false} NoRoomForExtras(expected: seq<Content>, actual: seq<Content>)
    requires DistinctContents(expected) && |actual| == |expected|
    requires forall c :: c in expected ==> c in actual
    ensures multiset(actual) == multiset(expected)
  {
    if expected == [] {
      assert actual == [];
    } else {
      var init, last := expected[..|expected| - 1], expected[|expected| - 1];
      assert expected == init + [last];
      assert last in actual;
      var i :| 0 <= i < |actual| && actual[i] == last;
      var others := actual[..i] + actual[i + 1..];
      assert actual == actual[..i] + [last] + actual[i + 1..];
      forall c | c in init ensures c in others {
        assert c in actual && c != last;
      }
      NoRoomForExtras(init, others);
      assert multiset(actual) == multiset(others) + multiset{last};
    }
  }

  lemma RepeatedCountsTwice(contents: seq<Content>, i: nat, j: nat)
    requires i < j < |contents| && contents[i] == contents[j]
    ensures multiset(contents)[contents[i]] >= 2
  {
    assert contents == contents[..i] + [contents[i]] + contents[i + 1..j] + [contents[j]] + contents[j + 1..];
  }

  lemma PermutationsShareNames(expected: seq<Content>, actual: seq<Content>)
    requires DistinctContents(expected) && multiset(actual) == multiset(expected)
    ensures |actual| == |expected| && DistinctContents(actual)
    ensures forall c :: c in expected <==> c in actual
  {
    assert |multiset(actual)| == |actual| && |multiset(expected)| == |expected|;
    forall c ensures c in expected <==> c in actual {
      assert c in multiset(expected) <==> c in multiset(actual);
    }
    forall i, j | 0 <= i < j < |actual| ensures actual[i].name != actual[j].name {
      assert actual[i] in expected && actual[j] in expected;
      DistinctAppearOnce(expected, actual[i]);
      if actual[i] == actual[j] {
        RepeatedCountsTwice(actual, i, j);
      }
    }
  }

  // ---------------------------------------------------------- file matching

  predicate Indexes(byName: map<string, FileFact>, facts: seq<FileFact>) {
    && (forall i :: 0 <= i < |facts| ==> facts[i].name in byName && byName[facts[i].name] == facts[i])
    && (forall k :: k in byName ==>
          k != "" && exists i :: 0 <= i < |facts| && facts[i] == byName[k] && facts[i].name == k)
  }

  lemma EmptyIndex(facts: seq<FileFact>)
    ensures Indexes(map[], facts[..0])
  {
  }

  lemma DistinctNamesAreDistinctContents(facts: seq<FileFact>)
    ensures DistinctContents(Actual(facts)) <==>
              forall i, j :: 0 <= i < j < |facts| ==> facts[i].name != facts[j].name
  {
    var actual := Actual(facts);
    assert forall i :: 0 <= i < |facts| ==> actual[i].name == facts[i].name;
  }

  lemma IndexedNamesRepeat(byName: map<string, FileFact>, facts: seq<FileFact>, n: nat)
    requires n < |facts| && Indexes(byName, facts[..n]) && facts[n].name in byName
    ensures !DistinctContents(Actual(facts))
  {
    var i :| 0 <= i < n && facts[..n][i] == byName[facts[n].name] && facts[..n][i].name == facts[n].name;
    assert Actual(facts)[i].name == Actual(facts)[n].name;
  }

  /** The first loop: regular files under distinct, non-empty names. */
  method IndexFacts(facts: seq<FileFact>) returns (ok: bool, byName: map<string, FileFact>)
    ensures ok <==>
      && (forall i :: 0 <= i < |facts| ==> facts[i].regular && facts[i].name != "")
      && DistinctContents(Actual(facts))
    ensures ok ==> Indexes(byName, facts)
  {
    hide Indexes, Actual, DistinctContents;
    EmptyIndex(facts);
    byName := map[];
    for n := 0 to |facts|
      invariant forall i :: 0 <= i < n ==> facts[i].regular && facts[i].name != ""
      invariant Indexes(byName, facts[..n])
      invariant forall i, j :: 0 <= i < j < n ==> facts[i].name != facts[j].name
    {
      var fact := facts[n];
      if !fact.regular || fact.name == "" || fact.name in byName {
        if fact.name in byName {
          IndexedNamesRepeat(byName, facts, n);
        }
        return false, byName;
      }
      IndexGrows(byName, facts, n);
      byName := byName[fact.name := fact];
    }
    assert facts[..|facts|] == facts;
    DistinctNamesAreDistinctContents(facts);
    return true, byName;
  }

  lemma IndexGrows(byName: map<string, FileFact>, facts: seq<FileFact>, n: nat)
    requires n < |facts| && Indexes(byName, facts[..n]) && facts[n].name !in byName && facts[n].name != ""
    ensures Indexes(byName[facts[n].name := facts[n]], facts[..n + 1])
    ensures forall i :: 0 <= i < n ==> facts[i].name != facts[n].name
  {
    var init, more, index := facts[..n], facts[..n + 1], byName[facts[n].name := facts[n]];
    forall i | 0 <= i < |more| ensures more[i].name in index && index[more[i].name] == more[i] {
      if i < n {
        assert init[i] == more[i];
      }
    }
    forall i | 0 <= i < n ensures facts[i].name != facts[n].name {
      assert init[i] == facts[i];
    }
    forall k | k in index
      ensures k != "" && exists i :: 0 <= i < |more| && more[i] == index[k] && more[i].name == k
    {
      if k != facts[n].name {
        var i :| 0 <= i < |init| && init[i] == byName[k] && init[i].name == k;
        assert more[i] == index[k];
      } else {
        assert more[n] == index[k];
      }
    }
  }

  lemma PresentContentsAreIndexed(facts: seq<FileFact>, byName: map<string, FileFact>, c: Content)
    requires Indexes(byName, facts) && c in Actual(facts)
    ensures c.name in byName && byName[c.name].size == c.size && byName[c.name].sha256 == c.sha256
  {
    var i :| 0 <= i < |facts| && Actual(facts)[i] == c;
    assert facts[i].name in byName;
  }

  /** The second loop: every manifest file is found with its size and hash. */
  method MatchAll(files: seq<ManifestFile>, facts: seq<FileFact>, byName: map<string, FileFact>) returns (ok: bool)
    requires Indexes(byName, facts)
    ensures ok <==> forall c :: c in Expected(files) ==> c in Actual(facts)
  {
    var expected, actual := Expected(files), Actual(facts);
    for n := 0 to |files|
      invariant forall i :: 0 <= i < n ==> expected[i] in actual
    {
      var file := files[n];
      if file.name !in byName || byName[file.name].size != file.size || byName[file.name].sha256 != file.sha256 {
        assert expected[n] in expected;
        if expected[n] in actual {
          PresentContentsAreIndexed(facts, byName, expected[n]);
        }
        return false;
      }
      var i :| 0 <= i < |facts| && facts[i] == byName[file.name] && facts[i].name == file.name;
      assert actual[i] == expected[n];
    }
    return true;
  }

  /** Accepts exactly regular files that are a permutation of the manifest's,
      by name, size and hash: nothing missing, nothing extra. */
  method VerifyFileFacts(files: seq<ManifestFile>, facts: seq<FileFact>) returns (ok: bool)
    requires DistinctNames(files) && forall i :: 0 <= i < |files| ==> files[i].name != ""
    ensures ok <==> FactsMatch(files, facts)
  {
    FactsMatchStepwise(files, facts);
    if |facts| != |files| {
      return false;
    }
    var regular, byName := IndexFacts(facts);
    if !regular {
      return false;
    }
    ok := MatchAll(files, facts, byName);
  }

  predicate FactsMatch(files: seq<ManifestFile>, facts: seq<FileFact>) {
    && (forall i :: 0 <= i < |facts| ==> facts[i].regular)
    && multiset(Actual(facts)) == multiset(Expected(files))
  }

  /** The checks of the two loops together say that the files are a permutation. */
  lemma FactsMatchStepwise(files: seq<ManifestFile>, facts: seq<FileFact>)
    requires DistinctNames(files) && forall i :: 0 <= i < |files| ==> files[i].name != ""
    ensures FactsMatch(files, facts) <==>
      && |facts| == |files|
      && (forall i :: 0 <= i < |facts| ==> facts[i].regular && facts[i].name != "")
      && DistinctContents(Actual(facts))
      && (forall c :: c in Expected(files) ==> c in Actual(facts))
  {
    var expected, actual := Expected(files), Actual(facts);
    if multiset(actual) == multiset(expected) {
      PermutationsShareNames(expected, actual);
      forall i | 0 <= i < |facts| ensures facts[i].name != "" {
        assert actual[i] in expected;
      }
    }
    if |facts| == |files| && forall c :: c in expected ==> c in actual {
      NoRoomForExtras(expected, actual);
    }
  }
}
