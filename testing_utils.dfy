/**
 * The comparison helpers the test suite checks service responses with: a
 * dictionary "partially matches" a target when every one of its keys is in
 * the target with the same value, and a list of dictionaries partially
 * matches a target list when each of its dictionaries partially matches
 * some dictionary of the target list.
 */
module TestingUtils {

  /** partial_dict_match: every key of compareDict is in targetDict, with an equal value. */
  predicate PartialDictMatch<K, V(==)>(compareDict: map<K, V>, targetDict: map<K, V>) {
    forall key :: key in compareDict ==> key in targetDict && compareDict[key] == targetDict[key]
  }

  /** The any(...) of partial_dict_list_match: some dictionary of the list is partially matched. */
  predicate MatchedBySome<K, V(==)>(compareDict: map<K, V>, targetDictList: seq<map<K, V>>) {
    exists j :: 0 <= j < |targetDictList| && PartialDictMatch(compareDict, targetDictList[j])
  }

  /** partial_dict_list_match: each dictionary of the first list partially matches one of the second. */
  predicate PartialDictListMatch<K, V(==)>(compareDictList: seq<map<K, V>>, targetDictList: seq<map<K, V>>) {
    forall i :: 0 <= i < |compareDictList| ==> MatchedBySome(compareDictList[i], targetDictList)
  }

  // ---------------------------------------------------------------------
  // a partial match is containment of key-value pairs

  /** A partial match is exactly containment of the key-value pairs: the "subset comparison for dicts". */
  lemma PartialMatchIsItemSubset<K, V>(compareDict: map<K, V>, targetDict: map<K, V>)
    ensures PartialDictMatch(compareDict, targetDict) <==> compareDict.Items <= targetDict.Items
  {
    if PartialDictMatch(compareDict, targetDict) {
      forall item | item in compareDict.Items
        ensures item in targetDict.Items
      {
        assert item.0 in compareDict;
      }
    }
    if compareDict.Items <= targetDict.Items {
      forall key | key in compareDict
        ensures key in targetDict && compareDict[key] == targetDict[key]
      {
        assert (key, compareDict[key]) in compareDict.Items;
        assert (key, compareDict[key]) in targetDict.Items;
      }
    }
  }

  /** A key the target lacks makes the match fail. */
  lemma MissingKeyFails<K, V>(compareDict: map<K, V>, targetDict: map<K, V>, key: K)
    requires key in compareDict && key !in targetDict
    ensures !PartialDictMatch(compareDict, targetDict)
  {
  }

  /** A key whose value differs in the target makes the match fail. */
  lemma DifferentValueFails<K, V>(compareDict: map<K, V>, targetDict: map<K, V>, key: K)
    requires key in compareDict && key in targetDict && compareDict[key] != targetDict[key]
    ensures !PartialDictMatch(compareDict, targetDict)
  {
  }

  /** The empty dictionary matches every target. */
  lemma EmptyMatchesAnything<K, V>(targetDict: map<K, V>)
    ensures PartialDictMatch(map[], targetDict)
  {
  }

  /** Every dictionary matches itself. */
  lemma MatchIsReflexive<K, V>(d: map<K, V>)
    ensures PartialDictMatch(d, d)
  {
  }

  /** Matches chain: a part of a part is a part. */
  lemma MatchIsTransitive<K, V>(a: map<K, V>, b: map<K, V>, c: map<K, V>)
    requires PartialDictMatch(a, b) && PartialDictMatch(b, c)
    ensures PartialDictMatch(a, c)
  {
  }

  /** Two dictionaries that match each other are equal. */
  lemma MatchIsAntisymmetric<K, V>(a: map<K, V>, b: map<K, V>)
    requires PartialDictMatch(a, b) && PartialDictMatch(b, a)
    ensures a == b
  {
    assert a.Keys == b.Keys;
  }

  /** A target with more keys is not matched by the target of which it is an extension. */
  lemma LargerDoesNotMatchSmaller<K, V>(small: map<K, V>, large: map<K, V>, extra: K)
    requires PartialDictMatch(small, large) && extra in large && extra !in small
    ensures !PartialDictMatch(large, small)
  {
  }

  /** Adding a key the target has, with the target's value, keeps a match. */
  lemma MatchExtends<K, V>(compareDict: map<K, V>, targetDict: map<K, V>, key: K)
    requires PartialDictMatch(compareDict, targetDict) && key in targetDict
    ensures PartialDictMatch(compareDict[key := targetDict[key]], targetDict)
  {
  }

  /** The examples of partial_dict_match's documentation. */
  lemma DocumentedExamples()
    ensures PartialDictMatch(map["1" := 1, "2" := 2], map["1" := 1, "2" := 2, "3" := 3])
    ensures !PartialDictMatch(map["1" := 2], map["1" := 1, "2" := 2, "3" := 3])
    ensures !PartialDictMatch(map["4" := 4], map["1" := 1, "2" := 2, "3" := 3])
    ensures !PartialDictMatch(map["1" := 1, "2" := 2, "3" := 3], map["1" := 1, "2" := 2])
  {
    var b := map["1" := 1, "2" := 2, "3" := 3];
    DifferentValueFails(map["1" := 2], b, "1");
    MissingKeyFails(map["4" := 4], b, "4");
    MissingKeyFails(b, map["1" := 1, "2" := 2], "3");
  }

  // ---------------------------------------------------------------------
  // lists of dictionaries

  /** An empty list of expectations is matched by any list. */
  lemma EmptyListMatchesAnything<K, V>(targetDictList: seq<map<K, V>>)
    ensures PartialDictListMatch([], targetDictList)
  {
  }

  /** A non-empty list of expectations is never matched by an empty list. */
  lemma NothingMatchesInEmptyList<K, V>(compareDictList: seq<map<K, V>>)
    requires compareDictList != []
    ensures !PartialDictListMatch(compareDictList, [])
  {
    assert !MatchedBySome(compareDictList[0], []);
  }

  /** Every list matches itself: each dictionary finds itself. */
  lemma ListMatchIsReflexive<K, V>(ds: seq<map<K, V>>)
    ensures PartialDictListMatch(ds, ds)
  {
    forall i | 0 <= i < |ds|
      ensures MatchedBySome(ds[i], ds)
    {
      MatchIsReflexive(ds[i]);
    }
  }

  /** The list match is decided one expectation at a time: a list matches when its head and its tail do. */
  lemma {:induction false} ListMatchSplits<K, V>(compareDictList: seq<map<K, V>>, targetDictList: seq<map<K, V>>)
    requires compareDictList != []
    ensures PartialDictListMatch(compareDictList, targetDictList)
        <==> PartialDictListMatch([compareDictList[0]], targetDictList)
             && PartialDictListMatch(compareDictList[1..], targetDictList)
  {
    var head, tail := [compareDictList[0]], compareDictList[1..];
    if PartialDictListMatch(head, targetDictList) && PartialDictListMatch(tail, targetDictList) {
      forall i | 0 <= i < |compareDictList|
        ensures MatchedBySome(compareDictList[i], targetDictList)
      {
        if i == 0 {
          assert head[0] == compareDictList[0];
        } else {
          assert tail[i - 1] == compareDictList[i];
        }
      }
    }
    if PartialDictListMatch(compareDictList, targetDictList) {
      forall i | 0 <= i < |tail|
        ensures MatchedBySome(tail[i], targetDictList)
      {
        assert tail[i] == compareDictList[i + 1];
      }
    }
  }

  /** Matching more targets never hurts: a longer target list keeps every match. */
  lemma ListMatchGrows<K, V>(compareDictList: seq<map<K, V>>, targetDictList: seq<map<K, V>>, more: seq<map<K, V>>)
    requires PartialDictListMatch(compareDictList, targetDictList)
    ensures PartialDictListMatch(compareDictList, targetDictList + more)
  {
    forall i | 0 <= i < |compareDictList|
      ensures MatchedBySome(compareDictList[i], targetDictList + more)
    {
      assert MatchedBySome(compareDictList[i], targetDictList);
      var j :| 0 <= j < |targetDictList| && PartialDictMatch(compareDictList[i], targetDictList[j]);
      assert (targetDictList + more)[j] == targetDictList[j];
    }
  }

  /** List matches chain: expectations matched by a list that a third list matches are matched by the third. */
  lemma ListMatchIsTransitive<K, V>(a: seq<map<K, V>>, b: seq<map<K, V>>, c: seq<map<K, V>>)
    requires PartialDictListMatch(a, b) && PartialDictListMatch(b, c)
    ensures PartialDictListMatch(a, c)
  {
    forall i | 0 <= i < |a|
      ensures MatchedBySome(a[i], c)
    {
      assert MatchedBySome(a[i], b);
      var j :| 0 <= j < |b| && PartialDictMatch(a[i], b[j]);
      assert MatchedBySome(b[j], c);
      var k :| 0 <= k < |c| && PartialDictMatch(b[j], c[k]);
      MatchIsTransitive(a[i], b[j], c[k]);
    }
  }
}
