/**
 * dict_to_json: turns a column-oriented table (column name -> row id ->
 * value, as a data frame's to_dict() gives it) into a list of row objects
 * (column name -> value), one per id of the index, in index order.
 */
module Utils {

  /** A table by columns: column name -> row id -> value. */
  type ColumnTable<V> = map<string, map<int, V>>

  /** Every column has a value for every id of the index (otherwise the lookup raises KeyError). */
  predicate Covers<V>(dictionary: ColumnTable<V>, idRange: seq<int>) {
    forall key, j :: key in dictionary && 0 <= j < |idRange| ==> idRange[j] in dictionary[key]
  }

  /** The row object of one id: each column's value at that id. */
  function Row<V>(dictionary: ColumnTable<V>, id: int): (r: map<string, V>)
    requires forall key :: key in dictionary ==> id in dictionary[key]
    ensures r.Keys == dictionary.Keys
  {
    map key | key in dictionary :: dictionary[key][id]
  }

  /** The row objects of the ids, in index order. */
  function Transposed<V>(dictionary: ColumnTable<V>, idRange: seq<int>): seq<map<string, V>>
    requires Covers(dictionary, idRange)
  {
    seq(|idRange|, j requires 0 <= j < |idRange| => Row(dictionary, idRange[j]))
  }

  method DictToJson<V(==)>(dictionary: ColumnTable<V>, idRange: seq<int>) returns (jsonList: seq<map<string, V>>)
    requires Covers(dictionary, idRange)
    ensures |jsonList| == |idRange|
    ensures forall j :: 0 <= j < |jsonList| ==> jsonList[j].Keys == dictionary.Keys
    ensures forall j, key :: 0 <= j < |jsonList| && key in dictionary ==>
              jsonList[j][key] == dictionary[key][idRange[j]]
    ensures jsonList == Transposed(dictionary, idRange)
  {
    jsonList := [];
    for j := 0 to |idRange|
      invariant |jsonList| == j
      invariant forall m :: 0 <= m < j ==> jsonList[m] == Row(dictionary, idRange[m])
    {
      var i := idRange[j];
      var objectDict: map<string, V> := map[];
      var remaining := dictionary.Keys;
      while remaining != {}
        invariant remaining <= dictionary.Keys
        invariant objectDict.Keys == dictionary.Keys - remaining
        invariant forall key :: key in objectDict ==> objectDict[key] == dictionary[key][i]
        decreases remaining
      {
        var key :| key in remaining;
        objectDict := objectDict[key := dictionary[key][i]];
        remaining := remaining - {key};
      }
      assert objectDict == Row(dictionary, i);
      jsonList := jsonList + [objectDict];
    }
  }

  /** Back from rows to columns: column -> id -> value, a later row overriding an earlier one. */
  function Columns<V>(rows: seq<map<string, V>>, idRange: seq<int>, keys: set<string>): (d: ColumnTable<V>)
    requires |rows| == |idRange|
    requires forall j :: 0 <= j < |rows| ==> keys <= rows[j].Keys
    ensures d.Keys == keys
  {
    if rows == [] then map key | key in keys :: map[]
    else
      var n := |rows| - 1;
      var before := Columns(rows[..n], idRange[..n], keys);
      map key | key in keys :: before[key][idRange[n] := rows[n][key]]
  }

  /** The table restricted to the ids of the index. */
  function Restricted<V>(dictionary: ColumnTable<V>, idRange: seq<int>): ColumnTable<V>
    requires Covers(dictionary, idRange)
  {
    map key | key in dictionary :: map i | i in idRange :: dictionary[key][i]
  }

  /**
   * The transpose loses nothing: turning the rows back into columns gives
   * the table on the ids of the index (a repeated id gives equal rows).
   */
  lemma {:induction false} TransposeRoundTrip<V>(dictionary: ColumnTable<V>, idRange: seq<int>)
    requires Covers(dictionary, idRange)
    ensures Columns(Transposed(dictionary, idRange), idRange, dictionary.Keys) == Restricted(dictionary, idRange)
  {
    if idRange != [] {
      var n := |idRange| - 1;
      CoversPrefix(dictionary, idRange, n);
      TransposeRoundTrip(dictionary, idRange[..n]);
      TransposedPrefix(dictionary, idRange, n);
      RestrictedOneMore(dictionary, idRange);
    }
  }

  lemma CoversPrefix<V>(dictionary: ColumnTable<V>, idRange: seq<int>, n: nat)
    requires Covers(dictionary, idRange) && n <= |idRange|
    ensures Covers(dictionary, idRange[..n])
  {
    forall key, j | key in dictionary && 0 <= j < n
      ensures idRange[..n][j] in dictionary[key]
    {
      assert idRange[..n][j] == idRange[j];
    }
  }

  lemma TransposedPrefix<V>(dictionary: ColumnTable<V>, idRange: seq<int>, n: nat)
    requires Covers(dictionary, idRange) && n <= |idRange|
    ensures Covers(dictionary, idRange[..n])
    ensures Transposed(dictionary, idRange)[..n] == Transposed(dictionary, idRange[..n])
  {
    CoversPrefix(dictionary, idRange, n);
  }

  /** Adding one id to the index adds that id to every restricted column. */
  lemma RestrictedOneMore<V>(dictionary: ColumnTable<V>, idRange: seq<int>)
    requires Covers(dictionary, idRange) && idRange != []
    ensures Covers(dictionary, idRange[..|idRange| - 1])
    ensures Restricted(dictionary, idRange)
         == map key | key in dictionary ::
              Restricted(dictionary, idRange[..|idRange| - 1])[key][idRange[|idRange| - 1] :=
                                                                   dictionary[key][idRange[|idRange| - 1]]]
  {
    var n := |idRange| - 1;
    CoversPrefix(dictionary, idRange, n);
    forall key | key in dictionary
      ensures Restricted(dictionary, idRange)[key]
           == Restricted(dictionary, idRange[..n])[key][idRange[n] := dictionary[key][idRange[n]]]
    {
      ColumnOneMore(dictionary[key], idRange);
    }
  }

  lemma ColumnOneMore<V>(column: map<int, V>, idRange: seq<int>)
    requires idRange != [] && forall j :: 0 <= j < |idRange| ==> idRange[j] in column
    ensures (map i | i in idRange :: column[i])
         == (map i | i in idRange[..|idRange| - 1] :: column[i])[idRange[|idRange| - 1] := column[idRange[|idRange| - 1]]]
  {
    var n := |idRange| - 1;
    assert idRange == idRange[..n] + [idRange[n]];
  }
}
