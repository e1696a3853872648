/**
 * Listing what the FDB metadata index holds: filter validation against the
 * schema, folding listed records into key -> set-of-values maps, and the
 * sorted list of archived forecast date/times.
 *
 * The index itself (pyfdb.list) is a parameter: a function from a request to
 * the records it lists, in listing order. A record is the 'keys' dictionary of
 * one listed entry.
 */
module Describe {
  import opened Wrappers
  import opened Decimal
  import Calendar
  import Sorting

  type Request = map<string, string>
  type Record = map<string, string>
  type Listing = Request -> seq<Record>

  /** The dimensions of the FDB schema a filter may name. */
  const SCHEMA_KEYS: seq<string> :=
    ["date", "expver", "model", "number", "stream", "time", "type", "levtype", "param", "step", "levelist"]

  /** The one string whose substrings are listed as integers. */
  const INT_KEYS: string := "number, levelist"

  /** A listed value: a string, or an int for the integer-valued keys. */
  datatype Value = Str(text: string) | Int(number: int)

  datatype DescribeError =
    | UnknownKeys(keys: set<string>)  // RuntimeError from _validate_filter, naming keys outside the schema
    | NotAnInteger                    // ValueError from int() on a listed value
    | MissingKey(key: string)         // KeyError
    | BadDateTime                     // ValueError from strptime on a listed date:time

  /** Every key of the filter is a dimension of the schema. */
  predicate InSchema(filter: Request)
  {
    forall k | k in filter :: k in SCHEMA_KEYS
  }

  /** _validate_filter: rejects a filter naming any key outside the schema. */
  function ValidateFilter(filter: Request): (r: Option<DescribeError>)
    ensures r.None? <==> forall k | k in filter :: k in SCHEMA_KEYS
    ensures r.Some? ==> r.value.UnknownKeys? && r.value.keys != {}
    ensures r.Some? ==> forall k | k in r.value.keys :: k in filter && k !in SCHEMA_KEYS
  {
    var unknown := set k | k in filter && k !in SCHEMA_KEYS;
    assert forall k | k in filter && k !in SCHEMA_KEYS :: k in unknown;
    if unknown == {} then None else Some(UnknownKeys(unknown))
  }

  /** The request list_all_values sends: validation only when a filter is given, then the filter itself. */
  function PrepareRequest(filter: Request): (r: Result<Request, DescribeError>)
    ensures filter == map[] ==> r == Success(map[])
    ensures r.Success? ==> r.value == filter
    ensures r.Failure? <==> exists k | k in filter :: k !in SCHEMA_KEYS
  {
    if filter == map[] then Success(map[])
    else match ValidateFilter(filter)
      case Some(e) => Failure(e)
      case None => Success(filter)
  }

  /** k occurs in s starting at index i. */
  predicate OccursAt(k: string, s: string, i: int)
  {
    0 <= i && i + |k| <= |s| && s[i..i + |k|] == k
  }

  /** Python's `k in s` on two strings. */
  predicate IsSubstring(k: string, s: string)
  {
    exists i | 0 <= i <= |s| :: OccursAt(k, s, i)
  }

  /** k is no substring of s when its character at j never appears where it would have to. */
  lemma NotSubstring(k: string, s: string, j: int)
    requires 0 <= j < |k|
    requires forall m | j <= m <= |s| - |k| + j :: s[m] != k[j]
    ensures !IsSubstring(k, s)
  {
    forall i | 0 <= i <= |s|
      ensures !OccursAt(k, s, i)
    {
      if i + |k| <= |s| {
        assert s[i..i + |k|][j] == s[i + j] != k[j];
      }
    }
  }

  /** `key in ('number, levelist')`: a substring test on one string, not a tuple membership. */
  predicate IsIntKey(key: string)
  {
    IsSubstring(key, INT_KEYS)
  }

  /** Among the schema keys exactly number and levelist are listed as integers. */
  lemma IntKeysOfSchema()
    ensures forall k | k in SCHEMA_KEYS :: IsIntKey(k) <==> k == "number" || k == "levelist"
  {
    assert OccursAt("number", INT_KEYS, 0);
    assert OccursAt("levelist", INT_KEYS, 8);
    NotSubstring("date", INT_KEYS, 0);
    NotSubstring("expver", INT_KEYS, 1);
    NotSubstring("model", INT_KEYS, 1);
    NotSubstring("stream", INT_KEYS, 4);
    NotSubstring("time", INT_KEYS, 0);
    NotSubstring("type", INT_KEYS, 1);
    NotSubstring("levtype", INT_KEYS, 4);
    NotSubstring("param", INT_KEYS, 0);
    NotSubstring("step", INT_KEYS, 3);
  }

  /** The listed form of value v of key: int(v) for the integer keys (None when int() raises), v otherwise. */
  function Convert(key: string, v: string): Option<Value>
  {
    if IsIntKey(key) then
      match ParseInt(v)
      case Some(n) => Some(Int(n))
      case None => None
    else Some(Str(v))
  }

  /** The keys list_all_values reads from a record: the requested keys, or all of the record's. */
  function KeysTaken(filterKeys: seq<string>, rec: Record): set<string>
  {
    if filterKeys == [] then rec.Keys else Elements(filterKeys)
  }

  /** The keys listed in ks, as a set. */
  function Elements(ks: seq<string>): set<string>
  {
    set k | k in ks
  }

  predicate RecordConverts(keys: set<string>, rec: Record)
  {
    forall k | k in keys && k in rec :: Convert(k, rec[k]).Some?
  }

  predicate AllConvert(filterKeys: seq<string>, listing: seq<Record>)
  {
    forall i | 0 <= i < |listing| :: RecordConverts(KeysTaken(filterKeys, listing[i]), listing[i])
  }

  /**
   * One record's contribution: each key read gets an entry (empty at first) and, when the
   * record carries the key, the record's value is added to the entry's set.
   */
  function Merge(acc: map<string, set<Value>>, keys: set<string>, rec: Record): map<string, set<Value>>
    requires RecordConverts(keys, rec)
  {
    map k | k in acc.Keys + keys :: Entry(acc, keys, rec, k)
  }

  /** The entry of key k after one record: its earlier values, plus the record's value when k is read. */
  function Entry(acc: map<string, set<Value>>, keys: set<string>, rec: Record, k: string): set<Value>
    requires RecordConverts(keys, rec)
  {
    (if k in acc then acc[k] else {}) + (if k in keys && k in rec then {Convert(k, rec[k]).value} else {})
  }

  lemma MergeNothing(acc: map<string, set<Value>>, rec: Record)
    ensures Merge(acc, {}, rec) == acc
  {
    var m := Merge(acc, {}, rec);
    assert m.Keys == acc.Keys;
    assert forall k | k in m :: m[k] == acc[k];
  }

  /** Reading one more key adds that key's value to its entry, creating the entry if need be. */
  lemma MergeOneMore(acc: map<string, set<Value>>, keys: set<string>, key: string, rec: Record)
    requires RecordConverts(keys + {key}, rec)
    ensures var m := Merge(acc, keys, rec);
      Merge(acc, keys + {key}, rec)
      == m[key := (if key in m then m[key] else {}) + (if key in rec then {Convert(key, rec[key]).value} else {})]
  {
    var m := Merge(acc, keys, rec);
    var m' := Merge(acc, keys + {key}, rec);
    var n := m[key := (if key in m then m[key] else {}) + (if key in rec then {Convert(key, rec[key]).value} else {})];
    assert m'.Keys == n.Keys;
    forall k | k in m'
      ensures m'[k] == n[k]
    {
      if k != key {
        assert Entry(acc, keys + {key}, rec, k) == Entry(acc, keys, rec, k);
      }
    }
  }

  /** The fold of list_all_values over the listing; int() failing on any value raises. */
  function Collect(filterKeys: seq<string>, listing: seq<Record>): Result<map<string, set<Value>>, DescribeError>
    decreases |listing|
  {
    if listing == [] then Success(map[])
    else
      match Collect(filterKeys, listing[..|listing| - 1])
      case Failure(e) => Failure(e)
      case Success(acc) =>
        var rec := listing[|listing| - 1];
        var keys := KeysTaken(filterKeys, rec);
        if RecordConverts(keys, rec) then Success(Merge(acc, keys, rec)) else Failure(NotAnInteger)
  }

  /** Drops the requested keys whose set stayed empty; keys never created are skipped. */
  function PruneEmpty(acc: map<string, set<Value>>, filterKeys: seq<string>): map<string, set<Value>>
  {
    map k | k in acc && (k !in filterKeys || acc[k] != {}) :: acc[k]
  }

  /** list_all_values(*filterKeys, **filterByValues), with the pruning loop skipping keys never created. */
  function ListAllValuesSpec(filterKeys: seq<string>, filterByValues: Request, fdb: Listing)
    : Result<map<string, set<Value>>, DescribeError>
  {
    match PrepareRequest(filterByValues)
    case Failure(e) => Failure(e)
    case Success(request) =>
      match Collect(filterKeys, fdb(request))
      case Failure(e) => Failure(e)
      case Success(acc) => Success(PruneEmpty(acc, filterKeys))
  }

  /** The pruning loop as written: `result[requested_key]` raises KeyError for a key never created. */
  function PruneAsWritten(acc: map<string, set<Value>>, keys: seq<string>): Result<map<string, set<Value>>, DescribeError>
    decreases |keys|
  {
    if keys == [] then Success(acc)
    else if keys[0] !in acc then Failure(MissingKey(keys[0]))
    else PruneAsWritten(if acc[keys[0]] == {} then acc - {keys[0]} else acc, keys[1..])
  }

  /** list_all_values exactly as written. */
  function ListAllValuesAsWritten(filterKeys: seq<string>, filterByValues: Request, fdb: Listing)
    : Result<map<string, set<Value>>, DescribeError>
  {
    match PrepareRequest(filterByValues)
    case Failure(e) => Failure(e)
    case Success(request) =>
      match Collect(filterKeys, fdb(request))
      case Failure(e) => Failure(e)
      case Success(acc) => PruneAsWritten(acc, filterKeys)
  }

  /**
   * When nothing matches the request and keys were requested, the code as written raises
   * KeyError for the first requested key, where the evident intent is an empty result.
   */
  lemma AsWrittenRaisesOnEmptyListing(filterKeys: seq<string>, filterByValues: Request, fdb: Listing)
    requires filterKeys != [] && fdb(filterByValues) == []
    requires forall k | k in filterByValues :: k in SCHEMA_KEYS
    ensures ListAllValuesAsWritten(filterKeys, filterByValues, fdb) == Failure(MissingKey(filterKeys[0]))
    ensures ListAllValuesSpec(filterKeys, filterByValues, fdb) == Success(map[])
  {
    assert PrepareRequest(filterByValues) == Success(filterByValues);
    assert Collect(filterKeys, []) == Success(map[]);
    assert PruneEmpty(map[], filterKeys) == map[];
  }

  /**
   * With one requested key the code as written differs from the corrected listing in one
   * case only: a valid filter that lists nothing, where it raises KeyError for that key.
   */
  lemma AsWrittenSingleKey(key: string, filterByValues: Request, fdb: Listing)
    ensures ListAllValuesAsWritten([key], filterByValues, fdb)
         == if InSchema(filterByValues) && fdb(filterByValues) == [] then Failure(MissingKey(key))
            else ListAllValuesSpec([key], filterByValues, fdb)
  {
    if InSchema(filterByValues) {
      assert PrepareRequest(filterByValues) == Success(filterByValues);
      var listing := fdb(filterByValues);
      if Collect([key], listing).Success? {
        CollectContents([key], listing);
        var acc := Collect([key], listing).value;
        if listing != [] {
          assert Elements([key]) == {key};
          var pruned := if acc[key] == {} then acc - {key} else acc;
          assert PruneAsWritten(acc, [key]) == PruneAsWritten(pruned, []);
          assert PruneEmpty(acc, [key]) == pruned;
        }
      }
    }
  }

  /**
   * Naming a key twice makes the code as written raise KeyError whenever no listed record
   * carries it: the first pass deletes the empty entry, the second looks it up.
   */
  lemma AsWrittenRaisesOnRepeatedKey(key: string, filterByValues: Request, fdb: Listing)
    requires InSchema(filterByValues)
    requires fdb(filterByValues) != []
    requires forall i | 0 <= i < |fdb(filterByValues)| :: key !in fdb(filterByValues)[i]
    ensures ListAllValuesAsWritten([key, key], filterByValues, fdb) == Failure(MissingKey(key))
    ensures ListAllValuesSpec([key, key], filterByValues, fdb) == Success(map[])
  {
    var listing := fdb(filterByValues);
    assert PrepareRequest(filterByValues) == Success(filterByValues);
    assert AllConvert([key, key], listing) by {
      forall i | 0 <= i < |listing|
        ensures RecordConverts(KeysTaken([key, key], listing[i]), listing[i])
      {
        assert KeysTaken([key, key], listing[i]) == {key};
      }
    }
    CollectOutcome([key, key], listing);
    CollectContents([key, key], listing);
    var acc := Collect([key, key], listing).value;
    assert Elements([key, key]) == {key};
    assert acc[key] == {};
    assert PruneAsWritten(acc, [key, key]) == PruneAsWritten(acc - {key}, [key]);
    assert PruneEmpty(acc, [key, key]) == map[];
  }

  /** The values of key k over the listed records that carry k. */
  function ValuesOf(listing: seq<Record>, k: string): set<Value>
  {
    set i | 0 <= i < |listing| && k in listing[i] && Convert(k, listing[i][k]).Some? :: Convert(k, listing[i][k]).value
  }

  /** Every key some listed record carries. */
  function KeysOf(listing: seq<Record>): set<string>
  {
    set i, k | 0 <= i < |listing| && k in listing[i] :: k
  }

  /** A key some record carries is the only kind with values. */
  lemma ValuesOfCarried(listing: seq<Record>, k: string)
    ensures ValuesOf(listing, k) != {} ==> k in KeysOf(listing)
  {
    if ValuesOf(listing, k) != {} {
      var v :| v in ValuesOf(listing, k);
      var i :| 0 <= i < |listing| && k in listing[i] && Convert(k, listing[i][k]).Some? && Convert(k, listing[i][k]).value == v;
      assert k in KeysOf(listing);
    }
  }

  lemma ValuesOfSnoc(listing: seq<Record>, rec: Record, k: string)
    ensures ValuesOf(listing + [rec], k)
         == ValuesOf(listing, k) + (if k in rec && Convert(k, rec[k]).Some? then {Convert(k, rec[k]).value} else {})
  {
    var all := listing + [rec];
    forall v | v in ValuesOf(listing, k) ensures v in ValuesOf(all, k) {
      var i :| 0 <= i < |listing| && k in listing[i] && Convert(k, listing[i][k]).Some? && Convert(k, listing[i][k]).value == v;
      assert all[i] == listing[i];
    }
    forall v | v in ValuesOf(all, k) ensures v in ValuesOf(listing, k) || (k in rec && Convert(k, rec[k]) == Some(v)) {
      var i :| 0 <= i < |all| && k in all[i] && Convert(k, all[i][k]).Some? && Convert(k, all[i][k]).value == v;
      if i < |listing| {
        assert all[i] == listing[i];
      }
    }
    if k in rec && Convert(k, rec[k]).Some? {
      assert all[|listing|] == rec;
    }
  }

  lemma KeysOfSnoc(listing: seq<Record>, rec: Record)
    ensures KeysOf(listing + [rec]) == KeysOf(listing) + rec.Keys
  {
    var all := listing + [rec];
    forall k | k in KeysOf(listing) ensures k in KeysOf(all) {
      var i :| 0 <= i < |listing| && k in listing[i];
      assert all[i] == listing[i];
    }
    forall k | k in rec ensures k in KeysOf(all) {
      assert all[|listing|] == rec;
    }
    forall k | k in KeysOf(all) ensures k in KeysOf(listing) || k in rec {
      var i :| 0 <= i < |all| && k in all[i];
      if i < |listing| {
        assert all[i] == listing[i];
      }
    }
  }

  /** The fold succeeds exactly when every value read converts, and then always with NotAnInteger otherwise. */
  lemma {:induction false} CollectOutcome(filterKeys: seq<string>, listing: seq<Record>)
    ensures Collect(filterKeys, listing).Success? <==> AllConvert(filterKeys, listing)
    ensures Collect(filterKeys, listing).Failure? ==> Collect(filterKeys, listing).error == NotAnInteger
    decreases |listing|
  {
    if listing != [] {
      var pre := listing[..|listing| - 1];
      CollectOutcome(filterKeys, pre);
      assert forall i | 0 <= i < |pre| :: pre[i] == listing[i];
    }
  }

  /** What the fold holds: per key read, the set of its values over the listing. */
  lemma {:induction false} CollectContents(filterKeys: seq<string>, listing: seq<Record>)
    requires Collect(filterKeys, listing).Success?
    ensures var acc := Collect(filterKeys, listing).value;
      && (filterKeys != [] ==> acc.Keys == if listing == [] then {} else Elements(filterKeys))
      && (filterKeys == [] ==> acc.Keys == KeysOf(listing))
      && forall k | k in acc :: acc[k] == ValuesOf(listing, k)
    decreases |listing|
  {
    if listing != [] {
      var pre, rec := listing[..|listing| - 1], listing[|listing| - 1];
      assert listing == pre + [rec];
      CollectContents(filterKeys, pre);
      var acc := Collect(filterKeys, pre).value;
      var keys := KeysTaken(filterKeys, rec);
      var acc' := Collect(filterKeys, listing).value;
      assert acc' == Merge(acc, keys, rec);
      KeysOfSnoc(pre, rec);
      forall k | k in acc'
        ensures acc'[k] == ValuesOf(listing, k)
      {
        ValuesOfSnoc(pre, rec, k);
        if k !in acc {
          if filterKeys == [] {
            ValuesOfCarried(pre, k);
          } else {
            assert pre == [];
          }
        }
      }
    }
  }

  /**
   * list_all_values with the requested keys given: exactly the requested keys with some value,
   * each mapped to the set of its values over the listed records that carry it.
   */
  lemma ListAllValuesRequested(filterKeys: seq<string>, filterByValues: Request, fdb: Listing)
    requires filterKeys != [] && ListAllValuesSpec(filterKeys, filterByValues, fdb).Success?
    ensures var res := ListAllValuesSpec(filterKeys, filterByValues, fdb).value;
      && (forall k :: k in res <==> k in filterKeys && ValuesOf(fdb(filterByValues), k) != {})
      && (forall k | k in res :: res[k] == ValuesOf(fdb(filterByValues), k))
  {
    var listing := fdb(filterByValues);
    assert PrepareRequest(filterByValues) == Success(filterByValues);
    CollectContents(filterKeys, listing);
  }

  /**
   * list_all_values without requested keys: every key some record carries, each mapped to the
   * (non-empty) set of its values.
   */
  lemma ListAllValuesAll(filterByValues: Request, fdb: Listing)
    requires ListAllValuesSpec([], filterByValues, fdb).Success?
    ensures var res := ListAllValuesSpec([], filterByValues, fdb).value;
      && res.Keys == KeysOf(fdb(filterByValues))
      && (forall k | k in res :: res[k] == ValuesOf(fdb(filterByValues), k) && res[k] != {})
  {
    var listing := fdb(filterByValues);
    assert PrepareRequest(filterByValues) == Success(filterByValues);
    CollectContents([], listing);
    CollectOutcome([], listing);
    var acc := Collect([], listing).value;
    forall k | k in acc
      ensures acc[k] != {}
    {
      var i :| 0 <= i < |listing| && k in listing[i];
      assert RecordConverts(KeysTaken([], listing[i]), listing[i]);
      assert Convert(k, listing[i][k]).value in ValuesOf(listing, k);
    }
  }

  /** list_all_values fails exactly on a filter outside the schema or a value int() rejects. */
  lemma ListAllValuesFailure(filterKeys: seq<string>, filterByValues: Request, fdb: Listing)
    ensures ListAllValuesSpec(filterKeys, filterByValues, fdb).Failure?
        <==> (exists k | k in filterByValues :: k !in SCHEMA_KEYS) || !AllConvert(filterKeys, fdb(filterByValues))
    ensures (forall k | k in filterByValues :: k in SCHEMA_KEYS) && !AllConvert(filterKeys, fdb(filterByValues))
        ==> ListAllValuesSpec(filterKeys, filterByValues, fdb) == Failure(NotAnInteger)
  {
    CollectOutcome(filterKeys, fdb(filterByValues));
  }

  /** Steps are not among the integer-valued keys. */
  lemma StepIsText()
    ensures !IsIntKey("step")
  {
    NotSubstring("step", INT_KEYS, 3);
  }

  /** Some listed record carries value v for key. */
  predicate Carries(listing: seq<Record>, key: string, v: string)
  {
    exists i | 0 <= i < |listing| :: key in listing[i] && listing[i][key] == v
  }

  /**
   * Asking for one string-valued key with a valid filter always succeeds, and the values
   * found for it (none when absent) are exactly the ones the listed records carry.
   */
  lemma SingleTextKey(key: string, filterByValues: Request, fdb: Listing)
    requires !IsIntKey(key)
    requires InSchema(filterByValues)
    ensures ListAllValuesSpec([key], filterByValues, fdb).Success?
    ensures var res := ListAllValuesSpec([key], filterByValues, fdb).value;
      forall v: Value :: v in (if key in res then res[key] else {}) <==> v.Str? && Carries(fdb(filterByValues), key, v.text)
  {
    var listing := fdb(filterByValues);
    assert AllConvert([key], listing) by {
      forall i | 0 <= i < |listing|
        ensures RecordConverts(KeysTaken([key], listing[i]), listing[i])
      {
        assert KeysTaken([key], listing[i]) == {key};
      }
    }
    ListAllValuesFailure([key], filterByValues, fdb);
    ListAllValuesRequested([key], filterByValues, fdb);
    var res := ListAllValuesSpec([key], filterByValues, fdb).value;
    forall v: Value
      ensures v in (if key in res then res[key] else {}) <==> v.Str? && Carries(listing, key, v.text)
    {
      if v in (if key in res then res[key] else {}) {
        assert v in ValuesOf(listing, key);
        var i :| 0 <= i < |listing| && key in listing[i] && Convert(key, listing[i][key]).Some?
               && Convert(key, listing[i][key]).value == v;
      }
      if v.Str? && Carries(listing, key, v.text) {
        var i :| 0 <= i < |listing| && key in listing[i] && listing[i][key] == v.text;
        assert v in ValuesOf(listing, key);
      }
    }
  }

  /** Once a prefix of the listing fails to convert, the whole fold fails the same way. */
  lemma {:induction false} CollectPrefixFailure(filterKeys: seq<string>, listing: seq<Record>, n: nat)
    requires n <= |listing| && Collect(filterKeys, listing[..n]).Failure?
    ensures Collect(filterKeys, listing) == Collect(filterKeys, listing[..n])
    decreases |listing| - n
  {
    if n < |listing| {
      assert listing[..n + 1][..n] == listing[..n];
      CollectPrefixFailure(filterKeys, listing, n + 1);
    } else {
      assert listing[..n] == listing;
    }
  }

  /** One more record of the listing: merged into the result, or the failure of its conversion. */
  lemma CollectStep(filterKeys: seq<string>, listing: seq<Record>, i: nat, acc: map<string, set<Value>>)
    requires i < |listing| && Collect(filterKeys, listing[..i]) == Success(acc)
    ensures var rec, keys := listing[i], KeysTaken(filterKeys, listing[i]);
      Collect(filterKeys, listing[..i + 1])
        == if RecordConverts(keys, rec) then Success(Merge(acc, keys, rec)) else Failure(NotAnInteger)
  {
    assert listing[..i + 1][..i] == listing[..i] && listing[..i + 1][i] == listing[i];
  }

  /** The schema check of list_all_values: an empty filter lists everything. */
  method BuildRequest(filterByValues: Request) returns (r: Result<Request, DescribeError>)
    ensures r == PrepareRequest(filterByValues)
  {
    if filterByValues == map[] {
      return Success(map[]);
    }
    var invalid := ValidateFilter(filterByValues);
    if invalid.Some? {
      return Failure(invalid.value);
    }
    return Success(filterByValues);
  }

  /** Adds every key of one listed record to the result being built, or reports the value int() rejects. */
  method MergeAllKeys(acc: map<string, set<Value>>, rec: Record) returns (r: Option<map<string, set<Value>>>)
    ensures r.Some? <==> RecordConverts(rec.Keys, rec)
    ensures r.Some? ==> r.value == Merge(acc, rec.Keys, rec)
  {
    var result := acc;
    var todo := rec.Keys;
    ghost var done: set<string> := {};
    MergeNothing(acc, rec);
    while todo != {}
      invariant todo + done == rec.Keys && todo !! done
      invariant RecordConverts(done, rec)
      invariant result == Merge(acc, done, rec)
      decreases todo
    {
      var key :| key in todo;
      var v := Convert(key, rec[key]);
      if v.None? {
        assert !RecordConverts(rec.Keys, rec);
        return None;
      }
      assert RecordConverts(done + {key}, rec);
      MergeOneMore(acc, done, key, rec);
      result := result[key := (if key in result then result[key] else {}) + {v.value}];
      todo, done := todo - {key}, done + {key};
    }
    return Some(result);
  }

  /** Adds the requested keys of one listed record to the result being built, creating missing entries. */
  method MergeRequestedKeys(acc: map<string, set<Value>>, filterKeys: seq<string>, rec: Record)
    returns (r: Option<map<string, set<Value>>>)
    ensures r.Some? <==> RecordConverts(Elements(filterKeys), rec)
    ensures r.Some? ==> r.value == Merge(acc, Elements(filterKeys), rec)
  {
    var result := acc;
    var j := 0;
    assert Elements(filterKeys[..0]) == {};
    MergeNothing(acc, rec);
    while j < |filterKeys|
      invariant 0 <= j <= |filterKeys|
      invariant RecordConverts(Elements(filterKeys[..j]), rec)
      invariant result == Merge(acc, Elements(filterKeys[..j]), rec)
    {
      var key := filterKeys[j];
      assert Elements(filterKeys[..j + 1]) == Elements(filterKeys[..j]) + {key} by {
        assert filterKeys[..j + 1] == filterKeys[..j] + [key];
      }
      if key in rec && Convert(key, rec[key]).None? {
        return None;
      }
      MergeOneMore(acc, Elements(filterKeys[..j]), key, rec);
      var added := if key in rec then {Convert(key, rec[key]).value} else {};
      result := result[key := (if key in result then result[key] else {}) + added];
      j := j + 1;
    }
    assert filterKeys[..j] == filterKeys;
    return Some(result);
  }

  /** The final loop of list_all_values, skipping a requested key that was never created. */
  method Prune(acc: map<string, set<Value>>, filterKeys: seq<string>) returns (r: map<string, set<Value>>)
    ensures r == PruneEmpty(acc, filterKeys)
  {
    r := acc;
    var j := 0;
    while j < |filterKeys|
      invariant 0 <= j <= |filterKeys|
      invariant r == PruneEmpty(acc, filterKeys[..j])
    {
      var key := filterKeys[j];
      assert filterKeys[..j + 1] == filterKeys[..j] + [key];
      if key in r && r[key] == {} {
        r := r - {key};
      }
      j := j + 1;
    }
    assert filterKeys[..j] == filterKeys;
  }

  /** list_all_values as a procedure: builds the result over the listing, then prunes it. */
  method ListAllValues(filterKeys: seq<string>, filterByValues: Request, fdb: Listing)
    returns (r: Result<map<string, set<Value>>, DescribeError>)
    ensures r == ListAllValuesSpec(filterKeys, filterByValues, fdb)
  {
    var request := BuildRequest(filterByValues);
    if request.Failure? {
      return Failure(request.error);
    }
    var listing := fdb(request.value);
    var result := CollectListing(filterKeys, listing);
    if result.Failure? {
      return Failure(result.error);
    }
    var pruned := Prune(result.value, filterKeys);
    return Success(pruned);
  }

  /** The loop of list_all_values over the listed records, building the result one record at a time. */
  method CollectListing(filterKeys: seq<string>, listing: seq<Record>) returns (r: Result<map<string, set<Value>>, DescribeError>)
    ensures r == Collect(filterKeys, listing)
  {
    var result: map<string, set<Value>> := map[];
    var i := 0;
    while i < |listing|
      invariant 0 <= i <= |listing|
      invariant Collect(filterKeys, listing[..i]) == Success(result)
    {
      var rec := listing[i];
      CollectStep(filterKeys, listing, i, result);
      var merged;
      if filterKeys == [] {
        merged := MergeAllKeys(result, rec);
      } else {
        merged := MergeRequestedKeys(result, filterKeys, rec);
      }
      if merged.None? {
        CollectPrefixFailure(filterKeys, listing, i + 1);
        return Failure(NotAnInteger);
      }
      result := merged.value;
      i := i + 1;
    }
    assert listing[..i] == listing;
    return Success(result);
  }

  /** The small request get_archived_forecasts sends when none (or an empty one) is given. */
  const DEFAULT_REQUEST: Request := map["levtype" := "sfc", "step" := "0", "number" := "1"]

  function ArchiveRequest(request: Option<Request>): (r: Request)
    ensures request.Some? && request.value != map[] ==> r == request.value
    ensures request.None? || request.value == map[] ==> r == DEFAULT_REQUEST
  {
    if request.None? || request.value == map[] then DEFAULT_REQUEST else request.value
  }

  /** The "date:time" key of one listed record; date is looked up before time. */
  function DateTimeKey(rec: Record): (r: Result<string, DescribeError>)
    ensures r.Success? <==> "date" in rec && "time" in rec
    ensures r.Success? ==> r.value == rec["date"] + ":" + rec["time"]
    ensures r.Failure? ==> r.error == MissingKey(if "date" !in rec then "date" else "time")
  {
    if "date" !in rec then Failure(MissingKey("date"))
    else if "time" !in rec then Failure(MissingKey("time"))
    else Success(rec["date"] + ":" + rec["time"])
  }

  /** The date/times, as timestamps, of the keys that parse. */
  function ForecastTimes(keys: set<string>): set<int>
  {
    set k | k in keys && Calendar.ParseForecastKey(k).Some? :: Calendar.ToTimestamp(Calendar.ParseForecastKey(k).value)
  }

  /** Two keys that parse to the same instant are the same key. */
  lemma KeyOfTime(k1: string, k2: string)
    requires Calendar.ParseForecastKey(k1).Some? && Calendar.ParseForecastKey(k2).Some?
    requires Calendar.ToTimestamp(Calendar.ParseForecastKey(k1).value) == Calendar.ToTimestamp(Calendar.ParseForecastKey(k2).value)
    ensures k1 == k2
  {
    Calendar.TimestampInjective(Calendar.ParseForecastKey(k1).value, Calendar.ParseForecastKey(k2).value);
    Calendar.ForecastKeyInjective(k1, k2);
  }

  /** A key not yet parsed contributes an instant not yet seen. */
  lemma NewKeyNewTime(done: set<string>, key: string)
    requires key !in done && Calendar.ParseForecastKey(key).Some?
    ensures Calendar.ToTimestamp(Calendar.ParseForecastKey(key).value) !in ForecastTimes(done)
  {
    var t := Calendar.ToTimestamp(Calendar.ParseForecastKey(key).value);
    forall k | k in done && Calendar.ParseForecastKey(k).Some?
      ensures Calendar.ToTimestamp(Calendar.ParseForecastKey(k).value) != t
    {
      if Calendar.ToTimestamp(Calendar.ParseForecastKey(k).value) == t {
        KeyOfTime(key, k);
      }
    }
  }

  /** The distinct date:time keys of a listing, gathered in order; the first record lacking one raises. */
  method CollectDateTimeKeys(listing: seq<Record>) returns (r: Result<set<string>, DescribeError>)
    ensures r.Success? <==> forall i | 0 <= i < |listing| :: DateTimeKey(listing[i]).Success?
    ensures r.Success? ==> r.value == set i | 0 <= i < |listing| :: DateTimeKey(listing[i]).value
    ensures r.Failure? ==> exists i | 0 <= i < |listing| ::
      DateTimeKey(listing[i]) == Failure(r.error) && forall j | 0 <= j < i :: DateTimeKey(listing[j]).Success?
  {
    var keys: set<string> := {};
    var i := 0;
    while i < |listing|
      invariant 0 <= i <= |listing|
      invariant forall j | 0 <= j < i :: DateTimeKey(listing[j]).Success?
      invariant keys == set j | 0 <= j < i :: DateTimeKey(listing[j]).value
    {
      var key := DateTimeKey(listing[i]);
      if key.Failure? {
        return Failure(key.error);
      }
      keys := keys + {key.value};
      i := i + 1;
    }
    return Success(keys);
  }

  /** Parses each key into a date/time, one at a time and in no particular order. */
  method ParseKeys(keys: set<string>) returns (r: Option<seq<int>>)
    ensures r.Some? <==> forall k | k in keys :: Calendar.ParseForecastKey(k).Some?
    ensures r.Some? ==> Sorting.Distinct(r.value)
    ensures r.Some? ==> forall t :: t in r.value <==> t in ForecastTimes(keys)
  {
    var times: seq<int> := [];
    var todo := keys;
    ghost var done: set<string> := {};
    while todo != {}
      invariant todo + done == keys && todo !! done
      invariant forall k | k in done :: Calendar.ParseForecastKey(k).Some?
      invariant Sorting.Distinct(times)
      invariant forall t :: t in times <==> t in ForecastTimes(done)
      decreases todo
    {
      var key :| key in todo;
      var dt := Calendar.ParseForecastKey(key);
      if dt.None? {
        return None;
      }
      var t := Calendar.ToTimestamp(dt.value);
      NewKeyNewTime(done, key);
      assert ForecastTimes(done + {key}) == ForecastTimes(done) + {t};
      times := times + [t];
      todo, done := todo - {key}, done + {key};
    }
    return Some(times);
  }

  /**
   * get_archived_forecasts: the archived forecast date/times, ascending and without repeats,
   * one per distinct listed date:time key.
   */
  method GetArchivedForecasts(request: Option<Request>, fdb: Listing) returns (r: Result<seq<int>, DescribeError>)
    ensures var listing := fdb(ArchiveRequest(request));
      && (r.Failure? && r.error.MissingKey? <==> exists i | 0 <= i < |listing| :: DateTimeKey(listing[i]).Failure?)
      && (r.Failure? ==> r.error.MissingKey? || r.error == BadDateTime)
      && (r.Failure? && r.error.MissingKey? ==> exists i | 0 <= i < |listing| ::
            DateTimeKey(listing[i]) == Failure(r.error) && forall j | 0 <= j < i :: DateTimeKey(listing[j]).Success?)
      && (r.Success? ==> Sorting.StrictlyIncreasing(r.value))
    ensures var listing := fdb(ArchiveRequest(request));
      (forall i | 0 <= i < |listing| :: DateTimeKey(listing[i]).Success?) ==>
        var keys := set i | 0 <= i < |listing| :: DateTimeKey(listing[i]).value;
        && (r.Success? <==> forall k | k in keys :: Calendar.ParseForecastKey(k).Some?)
        && (r.Success? ==> forall t :: t in r.value <==> t in ForecastTimes(keys))
  {
    var listing := fdb(ArchiveRequest(request));
    var keys := CollectDateTimeKeys(listing);
    if keys.Failure? {
      return Failure(keys.error);
    }
    var times := ParseKeys(keys.value);
    if times.None? {
      return Failure(BadDateTime);
    }
    var a := new int[|times.value|](i requires 0 <= i < |times.value| => times.value[i]);
    assert a[..] == times.value;
    Sorting.InsertionSort(a);
    Sorting.SortedDistinctIncreases(a[..], times.value);
    assert forall t :: t in a[..] <==> t in multiset(a[..]);
    r := Success(a[..]);
  }
}
