/**
 * The impact-indicator registry (sanitation/_impact_indicator.py): one
 * dictionary, shared by the whole `ImpactIndicator` class, from IDs and
 * synonyms to indicator objects. IDs are unique, a synonym may only name
 * one indicator, and the default indicators are loaded from a table
 * without touching indicators that already exist.
 *
 * The class-level dictionary becomes a `Registry` object: `keys` keeps the
 * dictionary's insertion order and `entries` its contents.
 */
module ImpactIndicators {
  import opened Wrappers

  datatype Error =
    | IdInUse(id: string)
    | SynonymInUse(synonym: string)

  /** One row of the default-indicator table, with the row's index as `id`. */
  datatype IndicatorRow = IndicatorRow(
    id: string, synonym: string, unit: string, methodName: string, category: string, description: string)

  /** No key occurs twice. */
  predicate Distinct(ks: seq<string>)
  {
    ks == [] || (ks[0] !in ks[1..] && Distinct(ks[1..]))
  }

  lemma {:induction false} DistinctAppend(ks: seq<string>, k: string)
    requires Distinct(ks) && k !in ks
    ensures Distinct(ks + [k])
  {
    if ks != [] {
      assert (ks + [k])[1..] == ks[1..] + [k];
      DistinctAppend(ks[1..], k);
    }
  }

  /** Assigning a key of a dictionary: a new key goes at the end, an existing one keeps its place. */
  function AppendNew(ks: seq<string>, k: string): (r: seq<string>)
    ensures forall x :: x in r <==> x in ks || x == k
    ensures Distinct(ks) ==> Distinct(r)
  {
    if k in ks then ks
    else
      assert Distinct(ks) ==> Distinct(ks + [k]) by {
        if Distinct(ks) {
          DistinctAppend(ks, k);
        }
      }
      ks + [k]
  }

  /** The keys a new row registers: its ID, and its synonym when the constructor takes it. */
  function RowKeysOf(row: IndicatorRow): set<string>
  {
    {row.id} + if RegistersSynonym(row.synonym) then {row.synonym} else {}
  }

  /** Every key the rows of a table can register. */
  function RowKeys(data: seq<IndicatorRow>): set<string>
  {
    if data == [] then {}
    else RowKeys(data[..|data| - 1]) + RowKeysOf(data[|data| - 1])
  }

  /** The indicator carries the ID and the fields of the row. */
  predicate HoldsRow(ind: ImpactIndicator, row: IndicatorRow)
    reads ind
  {
    && ind.id == row.id && ind.unit == row.unit && ind.methodName == row.methodName
    && ind.category == row.category && ind.description == row.description
  }

  /**
   * The keys after one row of `load_default_indicators`, given the keys
   * before it: a registered ID is skipped; a new one is appended, then its
   * synonym, unless another indicator already holds that synonym.
   */
  function RowStep(ks: seq<string>, row: IndicatorRow): (r: Result<seq<string>, Error>)
    ensures r.Err? <==> row.id !in ks && RegistersSynonym(row.synonym) && row.synonym in ks
    ensures r.Err? ==> r.error == SynonymInUse(row.synonym)
    ensures r.Ok? ==> forall k :: k in r.value <==> k in ks || (row.id !in ks && k in RowKeysOf(row))
    ensures r.Ok? && Distinct(ks) ==> Distinct(r.value)
  {
    if row.id in ks then Ok(ks)
    else
      assert Distinct(ks) ==> Distinct(ks + [row.id]) by {
        if Distinct(ks) {
          DistinctAppend(ks, row.id);
        }
      }
      if !RegistersSynonym(row.synonym) then Ok(ks + [row.id])
      else if row.synonym in ks then Err(SynonymInUse(row.synonym))
      else Ok(AppendNew(ks + [row.id], row.synonym))
  }

  /**
   * The keys after every row of `data`, starting from `ks`, or the error of
   * the first row that fails. The table's IDs are taken to be distinct: a
   * repeated new ID, which the source rejects, loads its first row here.
   */
  function LoadKeys(ks: seq<string>, data: seq<IndicatorRow>): Result<seq<string>, Error>
    decreases |data|
  {
    if data == [] then Ok(ks)
    else
      match RowStep(ks, data[0])
      case Err(e) => Err(e)
      case Ok(next) => LoadKeys(next, data[1..])
  }

  /** Row `j` is new on `ks` and registers a synonym that `ks` or an earlier row already holds. */
  predicate SynonymClash(ks: seq<string>, data: seq<IndicatorRow>, j: nat)
    requires j < |data|
  {
    && data[j].id !in ks && RegistersSynonym(data[j].synonym)
    && (data[j].synonym in ks || data[j].synonym in RowKeys(data[..j]))
  }

  /** The keys of a non-empty prefix are the first row's keys and those of the rest of the prefix. */
  lemma {:induction false} RowKeysCons(data: seq<IndicatorRow>, n: nat)
    requires 1 <= n <= |data|
    ensures RowKeys(data[..n]) == RowKeysOf(data[0]) + RowKeys(data[1..][..n - 1])
  {
    if n == 1 {
      assert data[..1][..0] == [];
      assert data[1..][..0] == [];
    } else {
      RowKeysCons(data, n - 1);
      assert data[..n][..n - 1] == data[..n - 1];
      assert data[1..][..n - 1][..n - 2] == data[1..][..n - 2];
      assert data[1..][..n - 1][n - 2] == data[n - 1];
    }
  }

  /** A successful load keeps every earlier key and registers every row's ID. */
  lemma {:induction false} LoadKeysKeeps(ks: seq<string>, data: seq<IndicatorRow>)
    requires LoadKeys(ks, data).Ok?
    ensures forall k :: k in ks ==> k in LoadKeys(ks, data).value
    ensures forall j :: 0 <= j < |data| ==> data[j].id in LoadKeys(ks, data).value
    ensures Distinct(ks) ==> Distinct(LoadKeys(ks, data).value)
    decreases |data|
  {
    if data != [] {
      var next := RowStep(ks, data[0]).value;
      LoadKeysKeeps(next, data[1..]);
      forall j | 1 <= j < |data|
        ensures data[j].id in LoadKeys(ks, data).value
      {
        assert data[j] == data[1..][j - 1];
      }
    }
  }

  /** A load fails only at a row that clashes, with the error naming that row's synonym. */
  lemma {:induction false} LoadKeysFails(ks: seq<string>, data: seq<IndicatorRow>)
    requires LoadKeys(ks, data).Err?
    ensures exists j :: 0 <= j < |data| && SynonymClash(ks, data, j) && LoadKeys(ks, data).error == SynonymInUse(data[j].synonym)
    decreases |data|
  {
    if RowStep(ks, data[0]).Err? {
      assert data[..0] == [];
      assert SynonymClash(ks, data, 0);
    } else {
      var next := RowStep(ks, data[0]).value;
      LoadKeysFails(next, data[1..]);
      var j :| 0 <= j < |data[1..]| && SynonymClash(next, data[1..], j)
        && LoadKeys(next, data[1..]).error == SynonymInUse(data[1..][j].synonym);
      RowKeysCons(data, j + 1);
      assert data[1..][j] == data[j + 1];
      assert SynonymClash(ks, data, j + 1);
    }
  }

  /** A table in which no new row registers a synonym already held loads without error. */
  lemma LoadsWithoutClash(ks: seq<string>, data: seq<IndicatorRow>)
    requires forall j :: 0 <= j < |data| ==> !SynonymClash(ks, data, j)
    ensures LoadKeys(ks, data).Ok?
  {
    if LoadKeys(ks, data).Err? {
      LoadKeysFails(ks, data);
    }
  }

  /** Loading from row `i` on: that row's step, then the rest. */
  lemma LoadKeysAt(ks: seq<string>, data: seq<IndicatorRow>, i: nat)
    requires i < |data|
    ensures RowStep(ks, data[i]).Err? ==> LoadKeys(ks, data[i..]) == Err(RowStep(ks, data[i]).error)
    ensures RowStep(ks, data[i]).Ok? ==> LoadKeys(ks, data[i..]) == LoadKeys(RowStep(ks, data[i]).value, data[i + 1..])
  {
    assert data[i..][0] == data[i];
    assert data[i..][1..] == data[i + 1..];
  }

  /** The constructor registers a synonym only when it is non-empty and not the text 'nan'. */
  predicate RegistersSynonym(synonym: string)
  {
    synonym != "" && synonym != "nan"
  }

  /** The indicator under key `k` is registered under its own ID as well. */
  predicate UnderOwnId(entries: map<string, ImpactIndicator>, k: string)
    requires k in entries
  {
    entries[k].id in entries && entries[entries[k].id] == entries[k]
  }

  /** Registering `ind` under a free synonym (or one that already names it) keeps every indicator under its own ID. */
  lemma OwnIdsAfterSynonym(entries: map<string, ImpactIndicator>, ind: ImpactIndicator, synonym: string)
    requires forall k :: k in entries ==> UnderOwnId(entries, k)
    requires ind.id in entries && entries[ind.id] == ind
    requires synonym in entries ==> entries[synonym] == ind
    ensures var after := entries[synonym := ind]; forall k :: k in after ==> UnderOwnId(after, k)
  {
    var after := entries[synonym := ind];
    forall k | k in after
      ensures UnderOwnId(after, k)
    {
      if k != synonym {
        assert UnderOwnId(entries, k);
      }
    }
  }

  class ImpactIndicator {
    const id: string
    var unit: string
    var methodName: string
    var category: string
    var description: string

    constructor (id: string, unit: string, methodName: string, category: string, description: string)
      ensures this.id == id && this.unit == unit && this.methodName == methodName
      ensures this.category == category && this.description == description
    {
      this.id := id;
      this.unit := unit;
      this.methodName := methodName;
      this.category := category;
      this.description := description;
    }
  }

  /** The keys among `ks` whose indicator is `ind`, in the order of `ks`. */
  function KeysOf(ks: seq<string>, entries: map<string, ImpactIndicator>, ind: ImpactIndicator): (r: seq<string>)
    ensures forall k :: k in r <==> k in ks && k in entries && entries[k] == ind
    ensures Distinct(ks) ==> Distinct(r)
  {
    if ks == [] then []
    else
      var rest := KeysOf(ks[1..], entries, ind);
      assert forall k :: k in rest ==> k in ks[1..];
      if ks[0] in entries && entries[ks[0]] == ind then [ks[0]] + rest else rest
  }

  /**
   * The filter keeps the order of `ks`: the synonyms found in a split key
   * sequence are those of the first part followed by those of the second.
   */
  lemma {:induction false} KeysOfAppend(a: seq<string>, b: seq<string>, entries: map<string, ImpactIndicator>,
                                        ind: ImpactIndicator)
    ensures KeysOf(a + b, entries, ind) == KeysOf(a, entries, ind) + KeysOf(b, entries, ind)
  {
    if a == [] {
      assert a + b == b;
    } else {
      assert (a + b)[0] == a[0];
      assert (a + b)[1..] == a[1..] + b;
      KeysOfAppend(a[1..], b, entries, ind);
    }
  }

  class Registry {
    var keys: seq<string>
    var entries: map<string, ImpactIndicator>
    var defaultData: Option<seq<IndicatorRow>>

    ghost predicate Valid()
      reads this
    {
      && Distinct(keys)
      && (forall k :: k in entries <==> k in keys)
      && (forall k :: k in entries ==> UnderOwnId(entries, k))
    }

    /** An empty registry, before the default indicators are loaded. */
    constructor ()
      ensures Valid() && keys == [] && entries == map[] && defaultData == None
    {
      keys := [];
      entries := map[];
      defaultData := None;
    }

    /** `get_synonym`: every key that names `ind`, its ID among them, in insertion order. */
    function GetSynonym(ind: ImpactIndicator): (r: seq<string>)
      reads this
      requires Valid()
      ensures forall k :: k in r <==> k in entries && entries[k] == ind
      ensures Distinct(r)
    {
      KeysOf(keys, entries, ind)
    }

    /** `get_all_indicators`: the distinct indicators in the registry. */
    function GetAllIndicators(): (r: set<ImpactIndicator>)
      reads this
      ensures forall k :: k in entries ==> entries[k] in r
      ensures r <= entries.Values
    {
      set k | k in entries :: entries[k]
    }

    /**
     * `set_synonym`: `synonym` names `ind` from now on, unless it already
     * names another indicator. Naming `ind` again changes nothing.
     */
    method SetSynonym(ind: ImpactIndicator, synonym: string) returns (r: Result<(), Error>)
      requires Valid() && ind.id in entries && entries[ind.id] == ind
      modifies this
      ensures Valid() && defaultData == old(defaultData)
      ensures r.Err? <==> old(synonym in entries && entries[synonym] != ind)
      ensures r.Err? ==> r.error == SynonymInUse(synonym) && keys == old(keys) && entries == old(entries)
      ensures r.Ok? ==> entries == old(entries)[synonym := ind] && keys == AppendNew(old(keys), synonym)
      ensures old(synonym in entries && entries[synonym] == ind) ==> keys == old(keys) && entries == old(entries)
    {
      if synonym in entries && entries[synonym] != ind {
        return Err(SynonymInUse(synonym));
      }
      OwnIdsAfterSynonym(entries, ind, synonym);
      if synonym in entries {
        assert entries[synonym := ind] == entries;
      }
      entries := entries[synonym := ind];
      keys := AppendNew(keys, synonym);
      r := Ok(());
    }

    /**
     * `ImpactIndicator(ID, synonym, ...)`: a new indicator registered under
     * `id`, and under `synonym` when the constructor takes it. A taken ID
     * leaves the registry as it was; a taken synonym fails after the ID has
     * been registered.
     */
    method New(id: string, synonym: string, methodName: string, category: string, unit: string, description: string)
      returns (r: Result<ImpactIndicator, Error>)
      requires Valid()
      modifies this
      ensures Valid() && defaultData == old(defaultData)
      ensures forall k :: k in old(entries) ==> k in entries && entries[k] == old(entries)[k]
      ensures forall k :: k in entries ==> k in old(entries) || k == id || (RegistersSynonym(synonym) && k == synonym)
      ensures old(id in entries) ==> r == Err(IdInUse(id)) && keys == old(keys) && entries == old(entries)
      ensures !old(id in entries) ==>
        && id in entries && fresh(entries[id])
        && entries[id].id == id && entries[id].unit == unit && entries[id].methodName == methodName
        && entries[id].category == category && entries[id].description == description
      ensures !old(id in entries) && !RegistersSynonym(synonym) ==>
        r == Ok(entries[id]) && keys == old(keys) + [id] && entries == old(entries)[id := entries[id]]
      ensures !old(id in entries) && RegistersSynonym(synonym) && old(synonym in entries) ==>
        r == Err(SynonymInUse(synonym)) && keys == old(keys) + [id] && entries == old(entries)[id := entries[id]]
      ensures !old(id in entries) && RegistersSynonym(synonym) && !old(synonym in entries) ==>
        && r == Ok(entries[id])
        && keys == AppendNew(old(keys) + [id], synonym)
        && entries == old(entries)[id := entries[id]][synonym := entries[id]]
    {
      if id in entries {
        return Err(IdInUse(id));
      }
      var ind := new ImpactIndicator(id, unit, methodName, category, description);
      DistinctAppend(keys, id);
      entries := entries[id := ind];
      keys := keys + [id];
      if RegistersSynonym(synonym) {
        var s := SetSynonym(ind, synonym);
        if s.Err? {
          return Err(s.error);
        }
      }
      r := Ok(ind);
    }

    /**
     * One row of `load_default_indicators`: a row whose ID is not yet
     * registered becomes a new indicator holding the row's fields; either
     * way its ID is registered afterwards. It fails only when the new
     * indicator's synonym is already taken.
     */
    method LoadRow(row: IndicatorRow) returns (r: Result<(), Error>)
      requires Valid()
      modifies this
      ensures Valid() && defaultData == old(defaultData)
      ensures forall k :: k in old(entries) ==> k in entries && entries[k] == old(entries)[k]
      ensures forall k :: k in entries ==> k in old(entries) || k in RowKeysOf(row)
      ensures row.id in entries
      ensures r.Err? <==> !old(row.id in entries) && RegistersSynonym(row.synonym) && old(row.synonym in entries)
      ensures r.Err? ==> r.error == SynonymInUse(row.synonym) && r.error == RowStep(old(keys), row).error
      ensures r.Ok? ==> keys == RowStep(old(keys), row).value
      ensures old(row.id in entries) ==> r.Ok? && entries == old(entries) && keys == old(keys)
      ensures !old(row.id in entries) ==> fresh(entries[row.id]) && HoldsRow(entries[row.id], row)
    {
      r := Ok(());
      if row.id !in entries {
        var made := New(row.id, row.synonym, row.methodName, row.category, row.unit, row.description);
        if made.Err? {
          r := Err(made.error);
        }
      }
    }

    /**
     * `load_default_indicators`: every row of the table (the stored one if
     * there is one, else `loaded`) whose ID is not yet registered becomes a
     * new indicator holding the row's fields; indicators already registered
     * are left alone. It fails exactly where `LoadKeys` does, and the table
     * is stored once every row went through.
     */
    method LoadDefaultIndicators(loaded: seq<IndicatorRow>) returns (r: Result<(), Error>)
      requires Valid()
      modifies this
      ensures Valid()
      ensures forall k :: k in old(entries) ==> k in entries && entries[k] == old(entries)[k]
      ensures var data := if old(defaultData).Some? then old(defaultData).value else loaded;
        && (r.Err? <==> LoadKeys(old(keys), data).Err?)
        && (r.Err? ==> r.error == LoadKeys(old(keys), data).error && defaultData == old(defaultData))
        && (r.Ok? ==> keys == LoadKeys(old(keys), data).value && defaultData == Some(data))
        && (r.Ok? ==> forall row :: row in data ==> row.id in entries)
        && (forall k :: k in entries && k !in old(entries) ==> k in RowKeys(data))
    {
      var data := if defaultData.Some? then defaultData.value else loaded;
      var i := 0;
      assert data[0..] == data;
      while i < |data|
        invariant 0 <= i <= |data|
        invariant Valid() && defaultData == old(defaultData)
        invariant forall k :: k in old(entries) ==> k in entries && entries[k] == old(entries)[k]
        invariant forall k :: k in entries && k !in old(entries) ==> k in RowKeys(data[..i])
        invariant LoadKeys(old(keys), data) == LoadKeys(keys, data[i..])
      {
        ghost var before, beforeKeys := entries, keys;
        var made := LoadRow(data[i]);
        LoadStep(data, i, old(entries), before, entries);
        LoadKeysAt(beforeKeys, data, i);
        if made.Err? {
          RowKeysPrefix(data, i + 1);
          return made;
        }
        assert LoadKeys(old(keys), data) == LoadKeys(keys, data[i + 1..]);
        i := i + 1;
      }
      assert data[..i] == data;
      assert data[i..] == [];
      LoadKeysKeeps(old(keys), data);
      defaultData := Some(data);
      r := Ok(());
    }
  }

  /** One row of the loader: registering `data[i]` keeps what the loop has established. */
  lemma LoadStep(data: seq<IndicatorRow>, i: nat, start: map<string, ImpactIndicator>,
                 before: map<string, ImpactIndicator>, after: map<string, ImpactIndicator>)
    requires i < |data|
    requires forall k :: k in before && k !in start ==> k in RowKeys(data[..i])
    requires forall k :: k in after ==> k in before || k in RowKeysOf(data[i])
    ensures forall k :: k in after && k !in start ==> k in RowKeys(data[..i + 1])
  {
    assert data[..i + 1][..i] == data[..i];
  }

  /** The keys of a table are exactly the IDs and synonyms of its rows. */
  lemma {:induction false} RowKeysOfRows(data: seq<IndicatorRow>)
    ensures forall k :: k in RowKeys(data) <==> exists row :: row in data && k in RowKeysOf(row)
  {
    if data != [] {
      var front := data[..|data| - 1];
      RowKeysOfRows(front);
      assert data == front + [data[|data| - 1]];
      forall k | k in RowKeys(data)
        ensures exists row :: row in data && k in RowKeysOf(row)
      {
        if k in RowKeys(front) {
          var row :| row in front && k in RowKeysOf(row);
          assert row in data;
        } else {
          assert data[|data| - 1] in data;
        }
      }
    }
  }

  /** The keys of a prefix of a table are keys of the table. */
  lemma {:induction false} RowKeysPrefix(data: seq<IndicatorRow>, n: nat)
    requires n <= |data|
    ensures RowKeys(data[..n]) <= RowKeys(data)
    decreases |data| - n
  {
    if n < |data| {
      RowKeysPrefix(data, n + 1);
      assert data[..n + 1][..n] == data[..n];
    } else {
      assert data[..n] == data;
    }
  }

  /** An indicator's ID is always among its synonyms. */
  lemma GetSynonymHasId(reg: Registry, ind: ImpactIndicator)
    requires reg.Valid() && ind.id in reg.entries && reg.entries[ind.id] == ind
    ensures ind.id in reg.GetSynonym(ind)
  {
  }

  /** Synonyms add no indicators: every indicator in the registry is the one registered under its own ID. */
  lemma AllIndicatorsByOwnId(reg: Registry)
    requires reg.Valid()
    ensures reg.GetAllIndicators() == set k | k in reg.entries && reg.entries[k].id == k :: reg.entries[k]
  {
    var all := reg.GetAllIndicators();
    var own := set k | k in reg.entries && reg.entries[k].id == k :: reg.entries[k];
    forall ind | ind in all
      ensures ind in own
    {
      var k :| k in reg.entries && reg.entries[k] == ind;
      assert reg.entries[ind.id] == ind;
    }
  }
}
