/** `QueryLibrary` (src/query_table.py): checks a parsed JSON filter object against
    the column registry, validates each filter value by the shape it has, and runs
    the conjunction of the per-key predicates over the table, keying matches by
    title. The table is an in-memory sequence of records; the SQL the original
    builds is modelled by the clauses a query accumulates and their meaning on one
    record. */
module QueryTable {
  import opened Wrappers
  import opened PyStr
  import opened Numbers
  import opened Calendar
  import opened Models

  /** Columns whose scalar filter is a case-insensitive substring search. */
  const PartialSearch: seq<string> := ["title", "author", "my_review", "private_notes"]

  /** The exceptions the class raises, with the key their message names. */
  datatype Error =
    | UnknownColumn(key: string)          // "{key} column is not found."
    | DateFormat(key: string)             // "For {key}, the date format is off. Please use YYYY/MM/DD."
    | DataType(key: string, value: Value) // "For {key}, the data_type of {value} if off."
    | QueryExecution                      // the store refused the query

  predicate Distinct(keys: seq<string>)
  {
    forall i, j :: 0 <= i < j < |keys| ==> keys[i] != keys[j]
  }

  // ---------------------------------------------------------------------------
  // _check_col

  /** Position of the first key that names no column, or |keys|. */
  function FirstUnknown(keys: seq<string>): (i: nat)
    ensures i <= |keys|
    ensures forall j :: 0 <= j < i ==> keys[j] in Registry
    ensures i < |keys| ==> keys[i] !in Registry
  {
    if keys == [] || keys[0] !in Registry then 0 else 1 + FirstUnknown(keys[1..])
  }

  /** What `_check_col` gives for the keys in their order: the set of keys when each
      names a column, otherwise the error naming the first key that does not. */
  function ColumnCheck(keys: seq<string>): (r: Result<set<string>, Error>)
    ensures r.Success? <==> forall k :: k in keys ==> k in Registry
    ensures r.Success? ==> r.value == set k | k in keys
    ensures r.Failure? ==> exists i :: 0 <= i < |keys| && keys[i] !in Registry
                              && r.error == UnknownColumn(keys[i])
                              && forall j :: 0 <= j < i ==> keys[j] in Registry
  {
    var i := FirstUnknown(keys);
    if i == |keys| then Success(set k | k in keys) else Failure(UnknownColumn(keys[i]))
  }

  // ---------------------------------------------------------------------------
  // Value checks (_check_dates, _checl_val)

  /** `value.get(name)`. */
  function Bound(m: map<string, Value>, name: string): Value
  {
    if name in m then m[name] else VNull
  }

  /** `strptime` on a bound: only text can parse. */
  function DateOf(v: Value): Option<Date>
  {
    if v.VStr? then ParseDate(v.s) else None
  }

  /** What `_check_dates` stores for a date column's value, or None where it raises:
      a date text becomes its date; a range object gets its two bounds replaced by
      their dates, which must be in order; anything else fails. */
  function CheckedDates(v: Value): (r: Option<Value>)
    ensures r.Some? && v.VStr? ==> r.value.VDate? && ParseDate(v.s) == Some(r.value.date)
    ensures r.Some? && v.VObject? ==>
              && r.value.VObject?
              && r.value.fields.Keys == v.fields.Keys + {"lower", "higher"}
              && r.value.fields["lower"].VDate?
              && r.value.fields["higher"].VDate?
              && DateOf(Bound(v.fields, "lower")) == Some(r.value.fields["lower"].date)
              && DateOf(Bound(v.fields, "higher")) == Some(r.value.fields["higher"].date)
              && NotAfter(r.value.fields["lower"].date, r.value.fields["higher"].date)
              && forall k :: k in v.fields && k != "lower" && k != "higher" ==> r.value.fields[k] == v.fields[k]
    ensures r.Some? ==> v.VStr? || v.VObject?
    ensures v.VStr? && ParseDate(v.s).Some? ==> r == Some(VDate(ParseDate(v.s).value))
    ensures v.VObject? ==>
              (r.Some? <==>
                 && DateOf(Bound(v.fields, "lower")).Some?
                 && DateOf(Bound(v.fields, "higher")).Some?
                 && NotAfter(DateOf(Bound(v.fields, "lower")).value, DateOf(Bound(v.fields, "higher")).value))
  {
    match v
    case VObject(m) =>
      var lower, higher := DateOf(Bound(m, "lower")), DateOf(Bound(m, "higher"));
      if lower.None? || higher.None? || !NotAfter(lower.value, higher.value) then None
      else Some(VObject(m["lower" := VDate(lower.value)]["higher" := VDate(higher.value)]))
    case VStr(s) =>
      if ParseDate(s).Some? then Some(VDate(ParseDate(s).value)) else None
    case _ => None
  }

  /** `isinstance(v, t)`. A JSON boolean is not taken as an int here. */
  predicate IsInstance(t: PyType, v: Value)
  {
    match t
    case TInt => v.VInt?
    case TFloat => v.VFloat?
    case TStr => v.VStr?
    case TDate => v.VDate?
    case TBool => v.VBool?
  }

  /** Python truthiness, which `bool(v)` returns. */
  predicate Truthy(v: Value)
  {
    match v
    case VNull => false
    case VBool(b) => b
    case VInt(i) => i != 0
    case VFloat(x) => x != 0.0
    case VStr(s) => s != ""
    case VDate(_) => true
    case VList(items) => items != []
    case VObject(m) => m != map[]
  }

  /** `int(x)` of a float: truncation toward zero. */
  function Truncate(x: real): int
  {
    if x >= 0.0 then x.Floor else -((-x).Floor)
  }

  /** `t(v)`, the coercion a non-date range applies to each bound; None where Python
      raises. Text renderings of floats, lists and objects are not modelled. */
  function Coerce(t: PyType, v: Value): (r: Option<Value>)
    ensures r.Some? ==> IsInstance(t, r.value)
    ensures t == TBool ==> r == Some(VBool(Truthy(v)))
    ensures v.VNull? && (t == TInt || t == TFloat) ==> r.None?
    ensures IsInstance(t, v) && t != TDate ==> r == Some(v)
    ensures t == TInt && v.VStr? ==>
              r == (if ParseInt(v.s).Some? then Some(VInt(ParseInt(v.s).value)) else None)
    ensures t == TInt && v.VFloat? ==> r == Some(VInt(Truncate(v.x)))
    ensures t == TFloat && v.VStr? ==>
              r == (if ParseFloat(v.s).Some? then Some(VFloat(ParseFloat(v.s).value)) else None)
    ensures t == TFloat && v.VInt? ==> r == Some(VFloat(v.i as real))
    ensures t == TStr && v.VInt? ==> r == Some(VStr(IntToText(v.i)))
    ensures v.VList? || v.VObject? || v.VDate? ==> (r.Some? <==> t == TBool)
  {
    match t
    case TInt =>
      (match v
       case VInt(i) => Some(VInt(i))
       case VBool(b) => Some(VInt(if b then 1 else 0))
       case VFloat(x) => Some(VInt(Truncate(x)))
       case VStr(s) => if ParseInt(s).Some? then Some(VInt(ParseInt(s).value)) else None
       case _ => None)
    case TFloat =>
      (match v
       case VInt(i) => Some(VFloat(i as real))
       case VBool(b) => Some(VFloat(if b then 1.0 else 0.0))
       case VFloat(x) => Some(VFloat(x))
       case VStr(s) => if ParseFloat(s).Some? then Some(VFloat(ParseFloat(s).value)) else None
       case _ => None)
    case TStr =>
      (match v
       case VStr(s) => Some(VStr(s))
       case VNull => Some(VStr("None"))
       case VBool(b) => Some(VStr(if b then "True" else "False"))
       case VInt(i) => Some(VStr(IntToText(i)))
       case _ => None)
    case TBool => Some(VBool(Truthy(v)))
    case TDate => None
  }

  /** Python's `a > b` for two values of one type. */
  predicate Greater(a: Value, b: Value)
  {
    match (a, b)
    case (VInt(x), VInt(y)) => x > y
    case (VFloat(x), VFloat(y)) => x > y
    case (VStr(x), VStr(y)) => CodeLess(y, x)
    case (VBool(x), VBool(y)) => x && !y
    case (VDate(x), VDate(y)) => !NotAfter(x, y)
    case _ => false
  }

  /** A non-date range passes when both bounds coerce and are in order. */
  predicate RangeAccepted(t: PyType, m: map<string, Value>)
  {
    var lower, higher := Coerce(t, Bound(m, "lower")), Coerce(t, Bound(m, "higher"));
    lower.Some? && higher.Some? && !Greater(lower.value, higher.value)
  }

  /** Every item `iter(v)` yields is an instance of `t`: text yields its characters
      as one-character strings, a list its elements, an object its keys; anything
      else is not iterable, which fails. */
  predicate ItemsAre(t: PyType, v: Value)
  {
    match v
    case VStr(s) => s == [] || t == TStr
    case VList(xs) => forall k :: 0 <= k < |xs| ==> IsInstance(t, xs[k])
    case VObject(m) => m == map[] || t == TStr
    case _ => false
  }

  /** Every item of `itertools.chain(*items)` is an instance of `t`. */
  predicate ChainedAre(t: PyType, items: seq<Value>)
  {
    forall k :: 0 <= k < |items| ==> ItemsAre(t, items[k])
  }

  /** The check `_checl_val` makes of one key, given the type `_type_builder` gave
      it, and the value the key holds afterwards. Only dates are rewritten; date
      failures of every kind are reported as the date-format error, every other
      failure as the data-type error. */
  function CheckValue(key: string, t: PyType, v: Value): (r: Result<Value, Error>)
    ensures t == TDate ==> r == (if CheckedDates(v).Some? then Success(CheckedDates(v).value)
                                 else Failure(DateFormat(key)))
    ensures t != TDate && r.Success? ==> r.value == v
    ensures t != TDate && r.Failure? ==> r.error == DataType(key, v)
    ensures t != TDate && v.VObject? ==> (r.Success? <==> RangeAccepted(t, v.fields))
    ensures t != TDate && v.VList? ==> (r.Success? <==> ChainedAre(t, v.items))
    ensures t != TDate && !v.VObject? && !v.VList? ==> (r.Success? <==> IsInstance(t, v))
  {
    if t == TDate then
      match CheckedDates(v)
      case Some(w) => Success(w)
      case None => Failure(DateFormat(key))
    else
      var passes := match v
        case VObject(m) => RangeAccepted(t, m)
        case VList(items) => ChainedAre(t, items)
        case _ => IsInstance(t, v);
      if passes then Success(v) else Failure(DataType(key, v))
  }

  /** The check of key `k` with the type its column gives. */
  function KeyCheck(k: string, v: Value): Result<Value, Error>
    requires k in Registry
  {
    CheckValue(k, ElementType(Registry[k]), v)
  }

  /** `_checl_val` over the keys in their order, from the given state of the filter
      object: the first failing key's error, or the object with every key checked. */
  function CheckValues(keys: seq<string>, json: map<string, Value>): (r: Result<map<string, Value>, Error>)
    requires forall k :: k in keys ==> k in Registry && k in json
    ensures r.Success? ==> r.value.Keys == json.Keys
    ensures r.Success? ==> forall k :: k in json && k !in keys ==> r.value[k] == json[k]
    decreases |keys|
  {
    if keys == [] then Success(json)
    else
      var k := keys[0];
      match KeyCheck(k, json[k])
      case Failure(e) => Failure(e)
      case Success(v) => CheckValues(keys[1..], json[k := v])
  }

  /** The whole validation: every key must name a column before any value is
      looked at; then the values are checked in key order. */
  function Validate(keys: seq<string>, json: map<string, Value>): (r: Result<map<string, Value>, Error>)
    requires forall k :: k in keys <==> k in json
    ensures ColumnCheck(keys).Failure? ==> r == Failure(ColumnCheck(keys).error)
    ensures r.Success? ==> r.value.Keys == json.Keys && forall k :: k in r.value ==> k in Registry
  {
    match ColumnCheck(keys)
    case Failure(e) => Failure(e)
    case Success(_) => CheckValues(keys, json)
  }

  /** The state `_checl_val` leaves when it raises at key `i`: the keys before it
      were checked (their dates rewritten) and `now` is the result, while key `i`,
      whose check fails, still holds its own value. */
  predicate StoppedAt(keys: seq<string>, json: map<string, Value>, i: int, now: map<string, Value>)
    requires forall k :: k in keys ==> k in Registry && k in json
  {
    && 0 <= i < |keys|
    && CheckValues(keys[..i], json) == Success(now)
    && keys[i] in now
    && KeyCheck(keys[i], now[keys[i]]).Failure?
  }

  // ---------------------------------------------------------------------------
  // _select_from_database

  /** One `query.filter(...)` clause. */
  datatype Clause =
    | Between(column: string, lower: Value, higher: Value) // column.between(lower, higher)
    | Overlap(column: string, items: seq<Value>)           // column.overlap(items)
    | Equals(column: string, operand: Value)               // column == operand
    | Contains(column: string, needle: string)             // lower(column) contains needle.lower()

  /** The value a range bound stands for in the comparison: a SQL NULL compares with
      nothing; a date compares as itself; any other bound as coerced by validation. */
  function Operand(t: PyType, bound: Value): Option<Value>
  {
    if bound == VNull then None else if bound.VDate? then Some(bound) else Coerce(t, bound)
  }

  /** A clause holds of a record. A NULL column satisfies no clause. */
  predicate Holds(c: Clause, b: Book): (r: bool)
    ensures r ==> c.column in Registry && Field(b, c.column) != VNull
  {
    c.column in Registry &&
    var v := Field(b, c.column);
    match c
    case Between(column, lower, higher) =>
      var t := ElementType(Registry[column]);
      var lo, hi := Operand(t, lower), Operand(t, higher);
      v != VNull && lo.Some? && hi.Some? && !Greater(lo.value, v) && !Greater(v, hi.value)
    case Overlap(_, items) =>
      v.VList? && exists x :: x in items && x in v.items
    case Equals(_, operand) =>
      v != VNull && v == operand
    case Contains(_, needle) =>
      v.VStr? && IsSubstring(Lower(needle), Lower(v.s))
  }

  /** A record passes a query when it passes every clause of it. */
  predicate AllHold(query: seq<Clause>, b: Book)
  {
    forall c :: c in query ==> Holds(c, b)
  }

  predicate AllText(items: seq<Value>)
  {
    forall k :: 0 <= k < |items| ==> items[k].VStr?
  }

  predicate AllTextLists(items: seq<Value>)
  {
    forall k :: 0 <= k < |items| ==> items[k].VList? && AllText(items[k].items)
  }

  /** One overlap clause per inner list of a nested list filter. */
  function NestedClauses(key: string, items: seq<Value>): (r: seq<Clause>)
    requires AllTextLists(items)
    ensures |r| == |items|
    ensures forall k :: 0 <= k < |items| ==> r[k] == Overlap(key, items[k].items)
  {
    if items == [] then []
    else NestedClauses(key, items[..|items| - 1]) + [Overlap(key, items[|items| - 1].items)]
  }

  /** The clauses one key of a validated filter adds to the query, or None where the
      store cannot run them: a list filter on a column that is not an array, a range
      or scalar on an array column, a nested list with an element that is not a list
      of text, a flat list holding anything but text. */
  function ClausesFor(key: string, v: Value): (r: Option<seq<Clause>>)
    requires key in Registry
    ensures r.Some? ==> r.value != [] && forall c :: c in r.value ==> c.column == key
    ensures r.Some? && Registry[key] == StrArrayCol ==> forall c :: c in r.value ==> c.Overlap?
    ensures r.Some? && Registry[key] != StrArrayCol ==> |r.value| == 1 && !r.value[0].Overlap?
  {
    var isArray := Registry[key] == StrArrayCol;
    match v
    case VObject(m) =>
      if isArray then None else Some([Between(key, Bound(m, "lower"), Bound(m, "higher"))])
    case VList(items) =>
      if !isArray then None
      else if exists k :: 0 <= k < |items| && items[k].VList? then
        if AllTextLists(items) then Some(NestedClauses(key, items)) else None
      else if AllText(items) then Some([Overlap(key, items)])
      else None
    case VStr(text) =>
      if isArray then None
      else Some([if key in PartialSearch then Contains(key, text) else Equals(key, v)])
    case _ =>
      if isArray || key in PartialSearch then None else Some([Equals(key, v)])
  }

  /** The store can run the clauses of every key. */
  predicate Runnable(json: map<string, Value>)
  {
    forall k :: k in json ==> k in Registry && ClausesFor(k, json[k]).Some?
  }

  /** A record passes the predicate of key `k`. */
  predicate KeyHolds(json: map<string, Value>, k: string, b: Book)
  {
    k in json && k in Registry && ClausesFor(k, json[k]).Some? && AllHold(ClausesFor(k, json[k]).value, b)
  }

  /** A record passes the predicates of every key in `keys`. */
  predicate AdmitsOn(json: map<string, Value>, keys: set<string>, b: Book)
  {
    forall k :: k in keys ==> KeyHolds(json, k, b)
  }

  /** A record passes the whole filter: the AND of its keys' predicates. */
  predicate Admits(json: map<string, Value>, b: Book)
  {
    AdmitsOn(json, json.Keys, b)
  }

  /** `item.title`, the key a match is stored under. */
  function TitleKey(b: Book): Value
  {
    StrValue(b.title)
  }

  /** The filter as a test on records. */
  function Filter(json: map<string, Value>): Book -> bool
  {
    b => Admits(json, b)
  }

  /** `result_list` after the records of `store`, in order, have been run through the
      test `keep`: each match stored under its title as `row` renders it, a later
      match replacing an earlier one with the same title. */
  function Collect(store: seq<Book>, keep: Book -> bool, row: Book -> map<string, Value>)
    : (r: map<Value, map<string, Value>>)
    ensures |r| <= |store|
    ensures forall b :: b in store && keep(b) ==> TitleKey(b) in r
  {
    if store == [] then map[]
    else
      var earlier := Collect(store[..|store| - 1], keep, row);
      var b := store[|store| - 1];
      if keep(b) then earlier[TitleKey(b) := row(b)] else earlier
  }

  /** `_select_from_database` on a validated filter. */
  function Execute(json: map<string, Value>, store: seq<Book>): (r: Result<map<Value, map<string, Value>>, Error>)
    ensures r.Success? <==> Runnable(json)
    ensures r.Failure? ==> r.error == QueryExecution
    ensures r.Success? ==> |r.value| <= |store|
  {
    if Runnable(json) then Success(Collect(store, Filter(json), AsDict)) else Failure(QueryExecution)
  }

  /** `select_query_db` on a filter object whose keys come in the order `keys`:
      validation first, and execution only when it passes. */
  function Select(keys: seq<string>, json: map<string, Value>, store: seq<Book>)
    : (r: Result<map<Value, map<string, Value>>, Error>)
    requires forall k :: k in keys <==> k in json
    ensures Validate(keys, json).Failure? ==> r == Failure(Validate(keys, json).error)
    ensures r.Success? ==> Validate(keys, json).Success? && Runnable(Validate(keys, json).value)
    ensures r.Success? ==> |r.value| <= |store|
  {
    match Validate(keys, json)
    case Failure(e) => Failure(e)
    case Success(checked) => Execute(checked, store)
  }

  // ---------------------------------------------------------------------------
  // The class

  class QueryLibrary {
    /** The parsed filter object, which validation rewrites in place. */
    var inputJson: map<string, Value>
    /** The order in which the filter object lists its keys. */
    const keyOrder: seq<string>
    /** The keys, once each is known to name a column. */
    const columns: set<string>
    /** The rows the session reads. */
    const store: seq<Book>

    ghost predicate Valid()
      reads this
    {
      && Distinct(keyOrder)
      && (forall k :: k in keyOrder <==> k in inputJson)
      && columns == inputJson.Keys
      && columns <= Registry.Keys
    }

    constructor (json: map<string, Value>, order: seq<string>, rows: seq<Book>, checked: set<string>)
      requires Distinct(order) && (forall k :: k in order <==> k in json)
      requires checked == json.Keys && checked <= Registry.Keys
      ensures Valid()
      ensures inputJson == json && keyOrder == order && store == rows && columns == checked
    {
      inputJson := json;
      keyOrder := order;
      store := rows;
      columns := checked;
    }

    /** `QueryLibrary(input_json)`: fails, naming the first unknown key, when a key
        names no column. */
    static method Create(json: map<string, Value>, order: seq<string>, rows: seq<Book>)
      returns (r: Result<QueryLibrary, Error>)
      requires Distinct(order) && (forall k :: k in order <==> k in json)
      ensures r.Failure? <==> ColumnCheck(order).Failure?
      ensures r.Failure? ==> r.error == ColumnCheck(order).error
      ensures r.Success? ==> fresh(r.value) && r.value.Valid() && r.value.inputJson == json
                             && r.value.keyOrder == order && r.value.store == rows
    {
      var checked := CheckCol(order);
      match checked
      case Failure(e) =>
        return Failure(e);
      case Success(cols) =>
        var q := new QueryLibrary(json, order, rows, cols);
        return Success(q);
    }

    /** `_check_col`: collects the keys into a set, failing at the first key that
        names no column. */
    static method CheckCol(keys: seq<string>) returns (r: Result<set<string>, Error>)
      ensures r == ColumnCheck(keys)
    {
      var found: set<string> := {};
      var i := 0;
      while i < |keys|
        invariant 0 <= i <= |keys|
        invariant forall j :: 0 <= j < i ==> keys[j] in Registry
        invariant found == set k | k in keys[..i]
      {
        var key := keys[i];
        if key !in Registry {
          assert FirstUnknown(keys) == i;
          return Failure(UnknownColumn(key));
        }
        assert keys[..i + 1] == keys[..i] + [key];
        found := found + {key};
        i := i + 1;
      }
      assert keys[..i] == keys;
      assert FirstUnknown(keys) == |keys|;
      return Success(found);
    }

    /** `_type_builder`: each column's element type. */
    static method TypeBuilder(cols: set<string>) returns (types: map<string, PyType>)
      requires cols <= Registry.Keys
      ensures types.Keys == cols
      ensures forall k :: k in cols ==> types[k] == ElementType(Registry[k])
    {
      types := map[];
      var pending := cols;
      while pending != {}
        invariant pending <= cols
        invariant types.Keys == cols - pending
        invariant forall k :: k in types ==> types[k] == ElementType(Registry[k])
        decreases pending
      {
        var key :| key in pending;
        types := types[key := ElementType(Registry[key])];
        pending := pending - {key};
      }
    }

    /** `_check_dates`: rewrites a date column's value with its parsed dates, or
        reports failure and leaves the filter as it was. */
    method CheckDates(key: string, value: Value) returns (ok: bool)
      requires key in inputJson
      modifies this
      ensures ok <==> CheckedDates(value).Some?
      ensures inputJson == if ok then old(inputJson)[key := CheckedDates(value).value] else old(inputJson)
    {
      match value
      case VObject(m) =>
        var lower := DateOf(Bound(m, "lower"));
        var higher := DateOf(Bound(m, "higher"));
        if lower.None? || higher.None? || !NotAfter(lower.value, higher.value) {
          return false;
        }
        inputJson := inputJson[key := VObject(m["lower" := VDate(lower.value)]["higher" := VDate(higher.value)])];
        return true;
      case VStr(s) =>
        var parsed := ParseDate(s);
        if parsed.None? {
          return false;
        }
        inputJson := inputJson[key := VDate(parsed.value)];
        return true;
      case _ =>
        return false;
    }

    /** One pass of `_checl_val`'s loop: the key's check, with a date key's value
        rewritten in place. */
    method CheckKey(key: string, keyType: PyType) returns (failure: Option<Error>)
      requires key in inputJson
      modifies this
      ensures inputJson.Keys == old(inputJson).Keys
      ensures CheckValue(key, keyType, old(inputJson)[key]).Failure? ==>
                failure == Some(CheckValue(key, keyType, old(inputJson)[key]).error)
      ensures CheckValue(key, keyType, old(inputJson)[key]).Success? ==>
                failure.None? && inputJson == old(inputJson)[key := CheckValue(key, keyType, old(inputJson)[key]).value]
      ensures failure.Some? ==> inputJson == old(inputJson)
    {
      var value := inputJson[key];
      if keyType == TDate {
        var ok := CheckDates(key, value);
        return if ok then None else Some(DateFormat(key));
      }
      assert inputJson[key := value] == inputJson;
      match value {
        case VObject(m) =>
          var lower := Coerce(keyType, Bound(m, "lower"));
          var higher := Coerce(keyType, Bound(m, "higher"));
          if lower.None? || higher.None? || Greater(lower.value, higher.value) {
            return Some(DataType(key, value));
          }
        case VList(items) =>
          var j := 0;
          while j < |items|
            invariant 0 <= j <= |items|
            invariant forall l :: 0 <= l < j ==> ItemsAre(keyType, items[l])
          {
            if !ItemsAre(keyType, items[j]) {
              return Some(DataType(key, value));
            }
            j := j + 1;
          }
        case _ =>
          if !IsInstance(keyType, value) {
            return Some(DataType(key, value));
          }
      }
      return None;
    }

    /** `_checl_val`: checks the keys in order, rewriting dates in place, and stops
        at the first failure. */
    method CheckVal() returns (failure: Option<Error>)
      requires Valid()
      modifies this
      ensures Valid() && inputJson.Keys == old(inputJson).Keys
      ensures CheckValues(keyOrder, old(inputJson)).Success? ==>
                failure.None? && inputJson == CheckValues(keyOrder, old(inputJson)).value
      ensures CheckValues(keyOrder, old(inputJson)).Failure? ==>
                failure == Some(CheckValues(keyOrder, old(inputJson)).error)
      ensures failure.Some? ==> exists i :: StoppedAt(keyOrder, old(inputJson), i, inputJson)
    {
      var colType := TypeBuilder(columns);
      var i := 0;
      while i < |keyOrder|
        invariant 0 <= i <= |keyOrder|
        invariant inputJson.Keys == old(inputJson).Keys
        invariant CheckValues(keyOrder, old(inputJson)) == CheckValues(keyOrder[i..], inputJson)
        invariant CheckValues(keyOrder[..i], old(inputJson)) == Success(inputJson)
      {
        var key := keyOrder[i];
        ghost var before := inputJson;
        var failed := CheckKey(key, colType[key]);
        CheckValStep(keyOrder, i, before, inputJson, failed);
        CheckValPrefix(keyOrder, i, old(inputJson), before, inputJson, failed);
        if failed.Some? {
          return failed;
        }
        i := i + 1;
      }
      return None;
    }

    /** The clauses `_select_from_database` adds for one key, or None where the
        store refuses them. */
    static method KeyClauses(key: string, value: Value) returns (r: Option<seq<Clause>>)
      requires key in Registry
      ensures r == ClausesFor(key, value)
    {
      var isArray := Registry[key] == StrArrayCol;
      match value
      case VObject(m) =>
        if isArray {
          return None;
        }
        return Some([Between(key, Bound(m, "lower"), Bound(m, "higher"))]);
      case VList(items) =>
        if !isArray {
          return None;
        }
        if exists k :: 0 <= k < |items| && items[k].VList? {
          r := NestedKeyClauses(key, items);
          return;
        }
        if !AllText(items) {
          return None;
        }
        return Some([Overlap(key, items)]);
      case VStr(text) =>
        if isArray {
          return None;
        }
        return Some([if key in PartialSearch then Contains(key, text) else Equals(key, value)]);
      case _ =>
        if isArray || key in PartialSearch {
          return None;
        }
        return Some([Equals(key, value)]);
    }

    /** The clauses of a list of lists: one overlap per inner list, or None as soon
        as an element is not a list of text. */
    static method NestedKeyClauses(key: string, items: seq<Value>) returns (r: Option<seq<Clause>>)
      ensures r == if AllTextLists(items) then Some(NestedClauses(key, items)) else None
    {
      var added := [];
      for j := 0 to |items|
        invariant AllTextLists(items[..j])
        invariant added == NestedClauses(key, items[..j])
      {
        if !(items[j].VList? && AllText(items[j].items)) {
          return None;
        }
        assert items[..j + 1][..j] == items[..j];
        added := added + [Overlap(key, items[j].items)];
      }
      assert items[..|items|] == items;
      return Some(added);
    }

    /** `_select_from_database`: adds the clauses of every key to the query, then
        stores each record that passes them all under its title. */
    method SelectFromDatabase() returns (r: Result<map<Value, map<string, Value>>, Error>)
      requires Valid()
      ensures r == Execute(inputJson, store)
    {
      var query: seq<Clause> := [];
      var pending := columns;
      while pending != {}
        invariant pending <= columns
        invariant forall k :: k in columns - pending ==> ClausesFor(k, inputJson[k]).Some?
        invariant forall b :: AllHold(query, b) <==> AdmitsOn(inputJson, columns - pending, b)
        decreases pending
      {
        var key :| key in pending;
        var clauses := KeyClauses(key, inputJson[key]);
        if clauses.None? {
          return Failure(QueryExecution);
        }
        var added := clauses.value;
        QueryGrows(inputJson, columns, pending, key, query, added);
        query := query + added;
        pending := pending - {key};
      }
      assert columns - pending == inputJson.Keys;
      var result: map<Value, map<string, Value>> := map[];
      for i := 0 to |store|
        invariant result == Collect(store[..i], Filter(inputJson), AsDict)
      {
        CollectStep(store, i, query, Filter(inputJson), AsDict);
        if AllHold(query, store[i]) {
          result := result[TitleKey(store[i]) := AsDict(store[i])];
        }
      }
      assert store[..|store|] == store;
      return Success(result);
    }

    /** `select_query_db`: validation, then execution only when validation passed. */
    method SelectQueryDb() returns (r: Result<map<Value, map<string, Value>>, Error>)
      requires Valid()
      modifies this
      ensures Valid()
      ensures r == Select(keyOrder, old(inputJson), store)
      ensures Validate(keyOrder, old(inputJson)).Success? ==>
                inputJson == Validate(keyOrder, old(inputJson)).value
      ensures r.Failure? && r.error != QueryExecution ==>
                exists i :: StoppedAt(keyOrder, old(inputJson), i, inputJson)
    {
      ColumnCheckOf(keyOrder, columns);
      var failure := CheckVal();
      if failure.Some? {
        return Failure(failure.value);
      }
      r := SelectFromDatabase();
    }
  }

  /** The columns a valid object holds pass `_check_col`. */
  lemma ColumnCheckOf(keys: seq<string>, cols: set<string>)
    requires (set k | k in keys) == cols && cols <= Registry.Keys
    ensures ColumnCheck(keys) == Success(cols)
  {
  }

  lemma CheckValuesUnfold(keys: seq<string>, json: map<string, Value>)
    requires keys != [] && forall k :: k in keys ==> k in Registry && k in json
    ensures var c := KeyCheck(keys[0], json[keys[0]]);
            CheckValues(keys, json) == if c.Failure? then Failure(c.error)
                                       else CheckValues(keys[1..], json[keys[0] := c.value])
  {
  }

  lemma CheckValuesStep(keys: seq<string>, i: nat, json: map<string, Value>)
    requires i < |keys| && forall k :: k in keys ==> k in Registry && k in json
    ensures var c := KeyCheck(keys[i], json[keys[i]]);
            CheckValues(keys[i..], json) == if c.Failure? then Failure(c.error)
                                            else CheckValues(keys[i + 1..], json[keys[i] := c.value])
  {
    assert keys[i..][1..] == keys[i + 1..];
    CheckValuesUnfold(keys[i..], json);
  }

  /** Checking one more key after a successful prefix: its check runs on the object
      the prefix left. */
  lemma {:induction false} CheckValuesSnoc(keys: seq<string>, json: map<string, Value>, now: map<string, Value>,
                                           k: string)
    requires forall x :: x in keys ==> x in Registry && x in json
    requires k in Registry && k in json
    requires CheckValues(keys, json) == Success(now)
    ensures k in now
    ensures var c := KeyCheck(k, now[k]);
            CheckValues(keys + [k], json) == if c.Failure? then Failure(c.error) else Success(now[k := c.value])
    decreases |keys|
  {
    if keys == [] {
      assert now == json;
      CheckValuesUnfold([k], json);
    } else {
      var c := KeyCheck(keys[0], json[keys[0]]);
      CheckValuesUnfold(keys, json);
      CheckValuesUnfold(keys + [k], json);
      assert (keys + [k])[0] == keys[0] && (keys + [k])[1..] == keys[1..] + [k];
      CheckValuesSnoc(keys[1..], json[keys[0] := c.value], now, k);
    }
  }

  /** One pass of `_checl_val`'s loop, in terms of the keys checked so far: a
      failure stops with the state the earlier keys left, and a success extends
      the checked prefix by one key. */
  lemma CheckValPrefix(keys: seq<string>, i: nat, json: map<string, Value>, before: map<string, Value>,
                       after: map<string, Value>, failed: Option<Error>)
    requires i < |keys| && forall k :: k in keys ==> k in Registry && k in json
    requires CheckValues(keys[..i], json) == Success(before)
    requires var c := KeyCheck(keys[i], before[keys[i]]);
             && (c.Failure? ==> failed.Some? && after == before)
             && (c.Success? ==> failed.None? && after == before[keys[i] := c.value])
    ensures failed.Some? ==> StoppedAt(keys, json, i, after)
    ensures failed.None? ==> CheckValues(keys[..i + 1], json) == Success(after)
  {
    CheckValuesSnoc(keys[..i], json, before, keys[i]);
    assert keys[..i + 1] == keys[..i] + [keys[i]];
  }

  /** One pass of `_checl_val`'s loop, in terms of the checks of the remaining keys:
      a failure is the failure of the rest, and a success leaves the rest to check. */
  lemma CheckValStep(keys: seq<string>, i: nat, before: map<string, Value>, after: map<string, Value>,
                     failed: Option<Error>)
    requires i < |keys| && forall k :: k in keys ==> k in Registry && k in before
    requires after.Keys == before.Keys
    requires var c := KeyCheck(keys[i], before[keys[i]]);
             && (c.Failure? ==> failed == Some(c.error))
             && (c.Success? ==> failed.None? && after == before[keys[i] := c.value])
    ensures failed.Some? ==> CheckValues(keys[i..], before) == Failure(failed.value)
    ensures failed.None? ==> CheckValues(keys[i..], before) == CheckValues(keys[i + 1..], after)
  {
    CheckValuesStep(keys, i, before);
  }

  lemma AdmitsOnAdd(json: map<string, Value>, done: set<string>, key: string)
    ensures forall b :: AdmitsOn(json, done + {key}, b) <==> AdmitsOn(json, done, b) && KeyHolds(json, key, b)
  {
  }

  /** One more record of the store run through a query equivalent to the filter. */
  lemma CollectStep(store: seq<Book>, i: nat, query: seq<Clause>, keep: Book -> bool,
                    row: Book -> map<string, Value>)
    requires i < |store|
    requires forall b :: AllHold(query, b) <==> keep(b)
    ensures Collect(store[..i + 1], keep, row)
         == if AllHold(query, store[i]) then Collect(store[..i], keep, row)[TitleKey(store[i]) := row(store[i])]
            else Collect(store[..i], keep, row)
  {
    var prefix := store[..i + 1];
    assert prefix[..|prefix| - 1] == store[..i];
    assert prefix[|prefix| - 1] == store[i];
    assert AllHold(query, store[i]) == keep(store[i]);
  }

  /** Adding the clauses of one more key to the query keeps it equal to the AND of
      the keys handled so far. */
  lemma QueryGrows(json: map<string, Value>, columns: set<string>, pending: set<string>, key: string,
                   query: seq<Clause>, added: seq<Clause>)
    requires key in pending && pending <= columns && key in json && key in Registry
    requires ClausesFor(key, json[key]) == Some(added)
    requires forall b :: AllHold(query, b) <==> AdmitsOn(json, columns - pending, b)
    ensures forall b :: AllHold(query + added, b) <==> AdmitsOn(json, columns - (pending - {key}), b)
  {
    var done := columns - pending;
    assert columns - (pending - {key}) == done + {key};
    AllHoldAppend(query, added);
    AdmitsOnAdd(json, done, key);
    forall b
      ensures AllHold(query + added, b) <==> AdmitsOn(json, columns - (pending - {key}), b)
    {
      assert KeyHolds(json, key, b) <==> AllHold(added, b);
    }
  }

  lemma AllHoldAppend(q1: seq<Clause>, q2: seq<Clause>)
    ensures forall b :: AllHold(q1 + q2, b) <==> AllHold(q1, b) && AllHold(q2, b)
  {
  }

  // ---------------------------------------------------------------------------
  // Properties of validation

  /** Key names are checked before any value: the first key that names no column
      is the error, whatever the values hold. */
  lemma UnknownColumnFirst(keys: seq<string>, json: map<string, Value>, store: seq<Book>, i: nat)
    requires forall k :: k in keys <==> k in json
    requires i < |keys| && keys[i] !in Registry
    requires forall j :: 0 <= j < i ==> keys[j] in Registry
    ensures Select(keys, json, store) == Failure(UnknownColumn(keys[i]))
  {
    var r := ColumnCheck(keys);
    var j :| 0 <= j < |keys| && keys[j] !in Registry && r.error == UnknownColumn(keys[j])
             && forall l :: 0 <= l < j ==> keys[l] in Registry;
    assert j == i;
  }

  /** The outcome of checking the values key by key: on success every key holds
      what its own check gave and nothing else was touched (so only date columns
      change); on failure the error is that of a key whose check fails after every
      earlier key passed. */
  lemma CheckValuesOutcome(keys: seq<string>, json: map<string, Value>)
    requires Distinct(keys) && forall k :: k in keys ==> k in Registry && k in json
    ensures CheckValues(keys, json).Success? ==>
              var out := CheckValues(keys, json).value;
              && out.Keys == json.Keys
              && (forall k :: k in json && k !in keys ==> out[k] == json[k])
              && (forall i :: 0 <= i < |keys| ==> KeyCheck(keys[i], json[keys[i]]) == Success(out[keys[i]]))
              && (forall k :: k in keys && Registry[k] != DateCol ==> out[k] == json[k])
    ensures CheckValues(keys, json).Failure? ==>
              exists i :: && 0 <= i < |keys|
                          && KeyCheck(keys[i], json[keys[i]]) == Failure(CheckValues(keys, json).error)
                          && forall l :: 0 <= l < i ==> KeyCheck(keys[l], json[keys[l]]).Success?
  {
    CheckValuesFailure(keys, json);
    if CheckValues(keys, json).Success? {
      var out := CheckValues(keys, json).value;
      CheckValuesSuccess(keys, json);
      forall key | key in keys && Registry[key] != DateCol
        ensures out[key] == json[key]
      {
        var i :| 0 <= i < |keys| && keys[i] == key;
        assert KeyCheck(key, json[key]) == Success(out[key]);
      }
    }
  }

  /** A successful check of the values gives each key what its own check gave and
      leaves every other key as it was. */
  lemma {:induction false} CheckValuesSuccess(keys: seq<string>, json: map<string, Value>)
    requires Distinct(keys) && forall k :: k in keys ==> k in Registry && k in json
    requires CheckValues(keys, json).Success?
    ensures var out := CheckValues(keys, json).value;
              && out.Keys == json.Keys
              && (forall k :: k in json && k !in keys ==> out[k] == json[k])
              && (forall i :: 0 <= i < |keys| ==> KeyCheck(keys[i], json[keys[i]]) == Success(out[keys[i]]))
    decreases |keys|
  {
    if keys == [] {
      return;
    }
    var k := keys[0];
    var c := KeyCheck(k, json[k]);
    var next := json[k := c.value];
    var rest := keys[1..];
    assert Distinct(rest);
    assert forall j :: 0 <= j < |rest| ==> rest[j] == keys[j + 1] && rest[j] != k;
    assert CheckValues(keys, json) == CheckValues(rest, next);
    CheckValuesSuccess(rest, next);
    var out := CheckValues(rest, next).value;
    assert k !in rest;
    forall i | 0 <= i < |keys|
      ensures KeyCheck(keys[i], json[keys[i]]) == Success(out[keys[i]])
    {
      if i > 0 {
        assert keys[i] == rest[i - 1];
      }
    }
  }

  /** A failed check of the values reports a key whose own check fails after every
      earlier key passed. */
  lemma {:induction false} CheckValuesFailure(keys: seq<string>, json: map<string, Value>)
    requires Distinct(keys) && forall k :: k in keys ==> k in Registry && k in json
    ensures CheckValues(keys, json).Failure? ==>
              exists i :: && 0 <= i < |keys|
                          && KeyCheck(keys[i], json[keys[i]]) == Failure(CheckValues(keys, json).error)
                          && forall l :: 0 <= l < i ==> KeyCheck(keys[l], json[keys[l]]).Success?
    decreases |keys|
  {
    if keys == [] || CheckValues(keys, json).Success? {
      return;
    }
    var k := keys[0];
    var c := KeyCheck(k, json[k]);
    if c.Failure? {
      assert KeyCheck(keys[0], json[keys[0]]) == Failure(CheckValues(keys, json).error);
      return;
    }
    var next := json[k := c.value];
    var rest := keys[1..];
    assert Distinct(rest);
    assert forall j :: 0 <= j < |rest| ==> rest[j] == keys[j + 1] && rest[j] != k;
    assert CheckValues(keys, json) == CheckValues(rest, next);
    CheckValuesFailure(rest, next);
    var i :| && 0 <= i < |rest|
             && KeyCheck(rest[i], next[rest[i]]) == Failure(CheckValues(rest, next).error)
             && forall l :: 0 <= l < i ==> KeyCheck(rest[l], next[rest[l]]).Success?;
    assert KeyCheck(keys[i + 1], json[keys[i + 1]]) == Failure(CheckValues(keys, json).error);
    forall l | 0 <= l < i + 1
      ensures KeyCheck(keys[l], json[keys[l]]).Success?
    {
      if l > 0 {
        assert keys[l] == rest[l - 1];
      }
    }
  }

  /** A date range whose bounds parse but are out of order is reported as a
      date-format error, not a data-type error. */
  lemma DateRangeReversed(key: string, m: map<string, Value>)
    requires DateOf(Bound(m, "lower")).Some? && DateOf(Bound(m, "higher")).Some?
    requires !NotAfter(DateOf(Bound(m, "lower")).value, DateOf(Bound(m, "higher")).value)
    ensures CheckValue(key, TDate, VObject(m)) == Failure(DateFormat(key))
  {
  }

  /** A non-date range whose coerced bounds are out of order is a data-type error
      naming the whole range. */
  lemma RangeReversed(key: string, t: PyType, m: map<string, Value>)
    requires t != TDate
    requires Coerce(t, Bound(m, "lower")).Some? && Coerce(t, Bound(m, "higher")).Some?
    requires Greater(Coerce(t, Bound(m, "lower")).value, Coerce(t, Bound(m, "higher")).value)
    ensures CheckValue(key, t, VObject(m)) == Failure(DataType(key, VObject(m)))
  {
  }

  /** The three list shapes of a tags filter: a list of lists of text and a flat
      list of text pass, a list of numbers does not. */
  lemma TagFilterShapes()
    ensures var nested := VList([VList([VStr("discworld")]), VList([VStr("fiction")])]);
            KeyCheck("tags", nested) == Success(nested)
    ensures var flat := VList([VStr("discworld"), VStr("fiction")]);
            KeyCheck("tags", flat) == Success(flat)
    ensures var numbers := VList([VInt(1), VInt(2)]);
            KeyCheck("tags", numbers) == Failure(DataType("tags", numbers))
  {
    var numbers := VList([VInt(1), VInt(2)]);
    assert !ItemsAre(TStr, numbers.items[0]);
  }

  /** A scalar must already have the column's type: a JSON integer is refused on a
      float column, and text is refused on an integer column. */
  lemma ScalarTypeExamples()
    ensures KeyCheck("avg_rating", VInt(4)) == Failure(DataType("avg_rating", VInt(4)))
    ensures KeyCheck("avg_rating", VFloat(4.0)) == Success(VFloat(4.0))
    ensures KeyCheck("number_of_pages", VStr("300")) == Failure(DataType("number_of_pages", VStr("300")))
  {
  }

  // ---------------------------------------------------------------------------
  // Meaning of the per-key predicates

  /** Every runnable key adds at least one clause, and no clause holds of NULL, so a
      record with no value in a filtered column never matches. */
  lemma NullNeverMatches(json: map<string, Value>, key: string, b: Book)
    requires key in json && key in Registry && Field(b, key) == VNull
    ensures !KeyHolds(json, key, b)
  {
    if ClausesFor(key, json[key]).Some? {
      var q := ClausesFor(key, json[key]).value;
      assert q != [] && q[0] in q && !Holds(q[0], b);
    }
  }

  /** A text filter on a partial-search column is a case-insensitive substring
      search. */
  lemma PartialSearchMeaning(json: map<string, Value>, key: string, needle: string, b: Book)
    requires key in json && key in PartialSearch && json[key] == VStr(needle)
    ensures key in Registry
    ensures KeyHolds(json, key, b) <==>
              Field(b, key).VStr? && IsSubstring(Lower(needle), Lower(Field(b, key).s))
  {
    assert [Contains(key, needle)][0] in [Contains(key, needle)];
  }

  /** A scalar filter on any other non-array column is exact equality. */
  lemma ExactMatchMeaning(json: map<string, Value>, key: string, b: Book)
    requires key in json && key in Registry && Registry[key] != StrArrayCol && key !in PartialSearch
    requires !json[key].VObject? && !json[key].VList? && json[key] != VNull
    ensures KeyHolds(json, key, b) <==> Field(b, key) == json[key]
  {
    assert [Equals(key, json[key])][0] in [Equals(key, json[key])];
  }

  /** A flat list of text on an array column matches records sharing any element. */
  lemma FlatListMeaning(json: map<string, Value>, key: string, items: seq<Value>, b: Book)
    requires key in json && key in Registry && Registry[key] == StrArrayCol && json[key] == VList(items)
    requires AllText(items) && forall k :: 0 <= k < |items| ==> !items[k].VList?
    ensures KeyHolds(json, key, b) <==>
              Field(b, key).VList? && exists x :: x in items && x in Field(b, key).items
  {
    assert [Overlap(key, items)][0] in [Overlap(key, items)];
  }

  /** A list of lists of text on an array column matches records sharing an element
      with every inner list. */
  lemma NestedListMeaning(json: map<string, Value>, key: string, items: seq<Value>, b: Book)
    requires key in json && key in Registry && Registry[key] == StrArrayCol && json[key] == VList(items)
    requires items != [] && AllTextLists(items)
    ensures KeyHolds(json, key, b) <==>
              && Field(b, key).VList?
              && forall k :: 0 <= k < |items| ==>
                   exists x :: x in items[k].items && x in Field(b, key).items
  {
    assert items[0].VList?;
    var q := NestedClauses(key, items);
    assert q[0] in q;
    if KeyHolds(json, key, b) {
      forall k | 0 <= k < |items|
        ensures exists x :: x in items[k].items && x in Field(b, key).items
      {
        assert q[k] in q;
      }
    }
    if Field(b, key).VList? && forall k :: 0 <= k < |items| ==>
         exists x :: x in items[k].items && x in Field(b, key).items {
      forall c | c in q ensures Holds(c, b) {
        var k :| 0 <= k < |q| && q[k] == c;
      }
    }
  }

  /** A range on a float column keeps the records whose value lies between the
      bounds as `float()` coerced them, both included. The bounds may be floats,
      integers, booleans or numeric text; other entries of the range are ignored. */
  lemma FloatRangeInclusive(json: map<string, Value>, key: string, lo: real, hi: real, x: real, b: Book)
    requires key in json && key in Registry && Registry[key] == FloatCol && json[key].VObject?
    requires Coerce(TFloat, Bound(json[key].fields, "lower")) == Some(VFloat(lo))
    requires Coerce(TFloat, Bound(json[key].fields, "higher")) == Some(VFloat(hi))
    requires Field(b, key) == VFloat(x)
    ensures KeyHolds(json, key, b) <==> lo <= x <= hi
  {
    var q := ClausesFor(key, json[key]).value;
    assert q[0] in q;
  }

  /** The same for an integer column, with the bounds as `int()` coerced them:
      integers, booleans, floats truncated toward zero, or integer text. */
  lemma IntRangeInclusive(json: map<string, Value>, key: string, lo: int, hi: int, x: int, b: Book)
    requires key in json && key in Registry && Registry[key] == IntCol && json[key].VObject?
    requires Coerce(TInt, Bound(json[key].fields, "lower")) == Some(VInt(lo))
    requires Coerce(TInt, Bound(json[key].fields, "higher")) == Some(VInt(hi))
    requires Field(b, key) == VInt(x)
    ensures KeyHolds(json, key, b) <==> lo <= x <= hi
  {
    var q := ClausesFor(key, json[key]).value;
    assert q[0] in q;
  }

  /** The same for a text column, in code-point order, with the bounds as `str()`
      coerced them: text, integers or booleans. A missing bound is left out here:
      it compares with NULL (`OpenRangeMatchesNothing`). */
  lemma TextRangeInclusive(json: map<string, Value>, key: string, lo: string, hi: string, x: string, b: Book)
    requires key in json && key in Registry && Registry[key] == StrCol && json[key].VObject?
    requires Bound(json[key].fields, "lower") != VNull && Bound(json[key].fields, "higher") != VNull
    requires Coerce(TStr, Bound(json[key].fields, "lower")) == Some(VStr(lo))
    requires Coerce(TStr, Bound(json[key].fields, "higher")) == Some(VStr(hi))
    requires Field(b, key) == VStr(x)
    ensures KeyHolds(json, key, b) <==> !CodeLess(x, lo) && !CodeLess(hi, x)
  {
    var q := ClausesFor(key, json[key]).value;
    assert q[0] in q;
  }

  /** Bounds that coerce to floats in order make a float range acceptable. */
  lemma FloatBoundsAccepted(m: map<string, Value>, lo: real, hi: real)
    requires Coerce(TFloat, Bound(m, "lower")) == Some(VFloat(lo))
    requires Coerce(TFloat, Bound(m, "higher")) == Some(VFloat(hi)) && lo <= hi
    ensures RangeAccepted(TFloat, m)
  {
  }

  /** A range on a float column whose bounds are numeric text `float()` reads in
      order passes validation unchanged. */
  lemma FloatTextRangeValidates(key: string, range: Value, lower: string, higher: string, lo: real, hi: real)
    requires key in Registry && Registry[key] == FloatCol
    requires range == VObject(map["lower" := VStr(lower), "higher" := VStr(higher)])
    requires ParseFloat(lower) == Some(lo) && ParseFloat(higher) == Some(hi) && lo <= hi
    ensures KeyCheck(key, range) == Success(range)
  {
    assert Bound(range.fields, "lower") == VStr(lower) && Bound(range.fields, "higher") == VStr(higher);
    FloatBoundsAccepted(range.fields, lo, hi);
    assert ElementType(Registry[key]) == TFloat;
  }

  /** Such a range keeps the records whose value lies between the numbers the
      texts spell, both included. */
  lemma FloatTextRangeFilters(key: string, range: Value, lower: string, higher: string,
                              lo: real, hi: real, x: real, b: Book)
    requires key in Registry && Registry[key] == FloatCol
    requires range == VObject(map["lower" := VStr(lower), "higher" := VStr(higher)])
    requires ParseFloat(lower) == Some(lo) && ParseFloat(higher) == Some(hi)
    requires Field(b, key) == VFloat(x)
    ensures KeyHolds(map[key := range], key, b) <==> lo <= x <= hi
  {
    assert Bound(range.fields, "lower") == VStr(lower) && Bound(range.fields, "higher") == VStr(higher);
    assert Coerce(TFloat, Bound(range.fields, "lower")) == Some(VFloat(lo));
    assert Coerce(TFloat, Bound(range.fields, "higher")) == Some(VFloat(hi));
    FloatRangeInclusive(map[key := range], key, lo, hi, x, b);
  }

  lemma MyRatingColumn(b: Book)
    ensures "my_rating" in Registry && Registry["my_rating"] == FloatCol
    ensures Field(b, "my_rating") == FloatValue(b.myRating)
  {
  }

  /** A my_rating range whose bounds are texts `float()` reads as 4 and 6, such as
      `{"lower": "4.0", "higher": "6.0"}` (`Numbers.RatingTexts`), passes validation
      unchanged and keeps the records rated from 4 to 6, both included. */
  lemma RatingRangeExample(range: Value, lower: string, higher: string, x: real, b: Book)
    requires ParseFloat(lower) == Some(4.0) && ParseFloat(higher) == Some(6.0)
    requires range == VObject(map["lower" := VStr(lower), "higher" := VStr(higher)])
    requires b.myRating == Some(x)
    ensures KeyCheck("my_rating", range) == Success(range)
    ensures KeyHolds(map["my_rating" := range], "my_rating", b) <==> 4.0 <= x <= 6.0
  {
    MyRatingColumn(b);
    FloatTextRangeValidates("my_rating", range, lower, higher, 4.0, 6.0);
    FloatTextRangeFilters("my_rating", range, lower, higher, 4.0, 6.0, x, b);
  }

  /** A validated date range keeps the records dated between its bounds, both
      included. */
  lemma DateRangeInclusive(json: map<string, Value>, key: string, lo: Date, hi: Date, d: Date, b: Book)
    requires key in json && key in Registry && Registry[key] == DateCol
    requires json[key] == VObject(map["lower" := VDate(lo), "higher" := VDate(hi)])
    requires Field(b, key) == VDate(d)
    ensures KeyHolds(json, key, b) <==> NotAfter(lo, d) && NotAfter(d, hi)
  {
    var q := ClausesFor(key, json[key]).value;
    assert q[0] in q;
  }

  /** A range missing a bound compares with NULL and matches nothing. */
  lemma OpenRangeMatchesNothing(json: map<string, Value>, key: string, m: map<string, Value>, b: Book)
    requires key in json && key in Registry && json[key] == VObject(m)
    requires "lower" !in m || "higher" !in m
    ensures !KeyHolds(json, key, b)
  {
    if ClausesFor(key, json[key]).Some? {
      var q := ClausesFor(key, json[key]).value;
      assert q[0] in q;
    }
  }

  // ---------------------------------------------------------------------------
  // The result map

  /** Record `i` passes the test `keep` and is titled `t`. */
  predicate MatchAt(keep: Book -> bool, store: seq<Book>, i: int, t: Value)
    requires 0 <= i < |store|
  {
    keep(store[i]) && TitleKey(store[i]) == t
  }

  /** The result holds exactly the titles of the matching records. */
  lemma {:induction false} CollectKeys(store: seq<Book>, keep: Book -> bool, row: Book -> map<string, Value>, t: Value)
    ensures t in Collect(store, keep, row) <==> exists i :: 0 <= i < |store| && MatchAt(keep, store, i, t)
    decreases |store|
  {
    if store == [] {
      return;
    }
    var prefix := store[..|store| - 1];
    CollectKeys(prefix, keep, row, t);
    var last := |store| - 1;
    assert forall i :: 0 <= i < |prefix| ==> prefix[i] == store[i];
    if exists i :: 0 <= i < |prefix| && MatchAt(keep, prefix, i, t) {
      var i :| 0 <= i < |prefix| && MatchAt(keep, prefix, i, t);
      assert MatchAt(keep, store, i, t);
    }
    if exists i :: 0 <= i < |store| && MatchAt(keep, store, i, t) {
      var i :| 0 <= i < |store| && MatchAt(keep, store, i, t);
      if i < last {
        assert MatchAt(keep, prefix, i, t);
      }
    }
    if t in Collect(store, keep, row) && t !in Collect(prefix, keep, row) {
      assert MatchAt(keep, store, last, t);
    }
  }

  /** Among matches sharing a title, the last one in table order is what the
      result holds. */
  lemma {:induction false} CollectLatest(store: seq<Book>, keep: Book -> bool, row: Book -> map<string, Value>, i: nat)
    requires i < |store| && keep(store[i])
    requires forall j :: i < j < |store| && keep(store[j]) ==> TitleKey(store[j]) != TitleKey(store[i])
    ensures TitleKey(store[i]) in Collect(store, keep, row)
    ensures Collect(store, keep, row)[TitleKey(store[i])] == row(store[i])
    decreases |store|
  {
    var prefix := store[..|store| - 1];
    if i < |prefix| {
      CollectLatest(prefix, keep, row, i);
    }
  }

  /** A query that fails validation never reaches the table; one that succeeds
      returns exactly the titles of the records the validated filter admits. */
  lemma SelectOutcome(keys: seq<string>, json: map<string, Value>, store: seq<Book>)
    requires forall k :: k in keys <==> k in json
    ensures Validate(keys, json).Failure? ==> Select(keys, json, store) == Failure(Validate(keys, json).error)
    ensures Select(keys, json, store).Success? ==>
              && Validate(keys, json).Success?
              && forall t :: t in Select(keys, json, store).value <==>
                   exists i :: 0 <= i < |store| && MatchAt(Filter(Validate(keys, json).value), store, i, t)
  {
    if Select(keys, json, store).Success? {
      var checked := Validate(keys, json).value;
      forall t
        ensures t in Select(keys, json, store).value <==>
                exists i :: 0 <= i < |store| && MatchAt(Filter(checked), store, i, t)
      {
        CollectKeys(store, Filter(checked), AsDict, t);
      }
    }
  }

  // ---------------------------------------------------------------------------
  // The tags example over a two-record table

  /** A record with only a title and tags. */
  function Shelved(title: string, tags: seq<string>): Book
  {
    Book(None, None, "", Some(title), None, None, None, "", "", None, None, None, None, None,
         None, None, None, None, Some(tags), None, None, None, false, None, None, None)
  }

  const FeetOfClay: Book := Shelved("Feet of Clay", ["discworld", "fiction"])
  const HarryPotter: Book := Shelved("Harry Potter", ["fiction"])

  const NestedTags: seq<Value> := [VList([VStr("discworld")]), VList([VStr("fiction")])]
  const FlatTags: seq<Value> := [VStr("discworld"), VStr("fiction")]

  lemma ShelvedFields()
    ensures Field(FeetOfClay, "tags") == VList([VStr("discworld"), VStr("fiction")])
    ensures Field(HarryPotter, "tags") == VList([VStr("fiction")])
  {
  }

  /** A filter with one key admits exactly the records that key's predicate admits. */
  lemma SingleKeyAdmits(key: string, v: Value, b: Book)
    ensures Admits(map[key := v], b) <==> KeyHolds(map[key := v], key, b)
  {
    assert map[key := v].Keys == {key};
  }

  lemma NestedTagsAdmit()
    ensures Admits(map["tags" := VList(NestedTags)], FeetOfClay)
  {
    ShelvedFields();
    NestedTagsMatch(FeetOfClay, [VStr("discworld"), VStr("fiction")]);
  }

  /** The nested tag filter admits a record tagged both discworld and fiction. */
  lemma NestedTagsMatch(b: Book, have: seq<Value>)
    requires Field(b, "tags") == VList(have)
    requires have == [VStr("discworld"), VStr("fiction")]
    ensures Admits(map["tags" := VList(NestedTags)], b)
  {
    var json := map["tags" := VList(NestedTags)];
    SingleKeyAdmits("tags", VList(NestedTags), b);
    NestedListMeaning(json, "tags", NestedTags, b);
    forall k | 0 <= k < |NestedTags|
      ensures exists x :: x in NestedTags[k].items && x in have
    {
      var x := NestedTags[k].items[0];
      assert x == have[k];
      assert x in NestedTags[k].items && x in have;
    }
  }

  lemma NestedTagsReject()
    ensures !Admits(map["tags" := VList(NestedTags)], HarryPotter)
  {
    var json := map["tags" := VList(NestedTags)];
    var have := Field(HarryPotter, "tags").items;
    ShelvedFields();
    SingleKeyAdmits("tags", VList(NestedTags), HarryPotter);
    NestedListMeaning(json, "tags", NestedTags, HarryPotter);
    assert have == [VStr("fiction")];
    assert NestedTags[0].items == [VStr("discworld")];
  }

  lemma FlatTagsAdmit()
    ensures Admits(map["tags" := VList(FlatTags)], FeetOfClay)
    ensures Admits(map["tags" := VList(FlatTags)], HarryPotter)
  {
    var json := map["tags" := VList(FlatTags)];
    ShelvedFields();
    SingleKeyAdmits("tags", VList(FlatTags), FeetOfClay);
    SingleKeyAdmits("tags", VList(FlatTags), HarryPotter);
    FlatListMeaning(json, "tags", FlatTags, FeetOfClay);
    FlatListMeaning(json, "tags", FlatTags, HarryPotter);
    assert VStr("fiction") in FlatTags && VStr("fiction") in Field(HarryPotter, "tags").items;
    assert VStr("fiction") in FlatTags && VStr("fiction") in Field(FeetOfClay, "tags").items;
  }

  /** A one-key filter whose value passes its check validates unchanged. */
  lemma SingleKeyValidates(key: string, v: Value)
    requires key in Registry && KeyCheck(key, v) == Success(v)
    ensures Validate([key], map[key := v]) == Success(map[key := v])
  {
    var json := map[key := v];
    assert ColumnCheck([key]).Success?;
    assert json[key := v] == json;
    assert [key][1..] == [];
    assert CheckValues([key], json) == CheckValues([], json[key := v]);
  }

  /** A one-key filter whose value yields clauses can be run. */
  lemma SingleKeyRunnable(key: string, v: Value)
    requires key in Registry && ClausesFor(key, v).Some?
    ensures Runnable(map[key := v])
  {
  }

  /** Both tag filters pass validation unchanged and can be run. */
  lemma TagFiltersValidate()
    ensures Validate(["tags"], map["tags" := VList(NestedTags)]) == Success(map["tags" := VList(NestedTags)])
    ensures Validate(["tags"], map["tags" := VList(FlatTags)]) == Success(map["tags" := VList(FlatTags)])
    ensures Runnable(map["tags" := VList(NestedTags)]) && Runnable(map["tags" := VList(FlatTags)])
  {
    TagFilterShapes();
    SingleKeyValidates("tags", VList(NestedTags));
    SingleKeyValidates("tags", VList(FlatTags));
    TagClauses();
    SingleKeyRunnable("tags", VList(NestedTags));
    SingleKeyRunnable("tags", VList(FlatTags));
  }

  /** Both tag filters yield clauses on the tags column. */
  lemma TagClauses()
    ensures ClausesFor("tags", VList(NestedTags)).Some?
    ensures ClausesFor("tags", VList(FlatTags)).Some?
  {
    assert NestedTags[0].VList?;
  }

  /** Running a filter over two records. */
  lemma CollectPair(keep: Book -> bool, a: Book, b: Book, row: Book -> map<string, Value>)
    ensures Collect([a, b], keep, row)
              == var first := if keep(a) then map[TitleKey(a) := row(a)] else map[];
                 if keep(b) then first[TitleKey(b) := row(b)] else first
  {
    assert [a][..0] == [];
    assert Collect([a], keep, row) == if keep(a) then map[TitleKey(a) := row(a)] else map[];
    assert [a, b][..1] == [a];
  }

  /** A list of lists asks for every inner list: only the record tagged both
      discworld and fiction comes back. A flat list asks for any: both do. */
  lemma TagsExample()
    ensures Select(["tags"], map["tags" := VList(NestedTags)], [FeetOfClay, HarryPotter])
              == Success(map[VStr("Feet of Clay") := AsDict(FeetOfClay)])
    ensures Select(["tags"], map["tags" := VList(FlatTags)], [FeetOfClay, HarryPotter])
              == Success(map[VStr("Feet of Clay") := AsDict(FeetOfClay), VStr("Harry Potter") := AsDict(HarryPotter)])
  {
    TagFiltersValidate();
    NestedTagsAdmit();
    NestedTagsReject();
    FlatTagsAdmit();
    CollectPair(Filter(map["tags" := VList(NestedTags)]), FeetOfClay, HarryPotter, AsDict);
    CollectPair(Filter(map["tags" := VList(FlatTags)]), FeetOfClay, HarryPotter, AsDict);
  }
}
