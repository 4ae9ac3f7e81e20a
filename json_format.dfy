/**
 * `format_data_to_json_serializable`: the recursive normaliser that turns the
 * values handed to the metadata logger into JSON-serialisable ones. Python
 * values are abstracted by their type: `None`, the four primitive types, torch
 * tensors (a shape, and the scalar `.item()` would return), mappings (their
 * items in iteration order), other iterables (their elements), and everything
 * else (its `str`).
 */
module JsonFormat {
  import opened Wrappers
  import opened Decimal

  /** A Python float, kept opaque: the model never computes with floats. */
  datatype Float = Float(bits: int)

  /** What `tensor.cpu().item()` returns: a Python int, float or bool. */
  datatype Scalar = IntItem(i: int) | FloatItem(f: Float) | BoolItem(b: bool)

  datatype Value =
    | NoneValue
    | Str(s: string)
    | Int(i: int)
    | FloatValue(f: Float)
    | Bool(b: bool)
    | Tensor(shape: seq<nat>, item: Scalar)
    | Mapping(items: seq<Item>)
    | Iterable(elements: seq<Value>)
    | Other(repr: string)

  /** One `(key, value)` pair of a mapping's `items()`. */
  datatype Item = Item(key: Value, val: Value)

  /** The normaliser's results: strings, numbers, booleans, dicts (in insertion order) and lists. */
  datatype Json =
    | JStr(s: string)
    | JInt(i: int)
    | JFloat(f: Float)
    | JBool(b: bool)
    | JObject(entries: seq<(Json, Json)>)
    | JList(elements: seq<Json>)

  /**
   * Building a dict raises TypeError when a normalised key is a list or a dict
   * (unhashable in Python); this error is not the RuntimeError the normaliser
   * catches, so it propagates.
   */
  datatype FormatError = UnhashableKey

  type Formatted = Result<Json, FormatError>

  predicate Hashable(j: Json) { !j.JObject? && !j.JList? }

  function ScalarValue(x: Scalar): Value {
    match x
    case IntItem(i) => Int(i)
    case FloatItem(f) => FloatValue(f)
    case BoolItem(b) => Bool(b)
  }

  /** Number of elements of a tensor: the product of its shape, 1 for shape `()`. */
  function Product(shape: seq<nat>): nat {
    if shape == [] then 1 else Product(shape[..|shape| - 1]) * shape[|shape| - 1]
  }

  function JoinDims(shape: seq<nat>): string {
    if shape == [] then ""
    else if |shape| == 1 then NatToString(shape[0])
    else NatToString(shape[0]) + ", " + JoinDims(shape[1..])
  }

  /** `str(tensor.shape)`, e.g. `torch.Size([2, 3])`. */
  function ShapeString(shape: seq<nat>): string {
    "torch.Size([" + JoinDims(shape) + "])"
  }

  function Format(v: Value): (r: Formatted)
    decreases v
  {
    match v
    case NoneValue => Ok(JStr("None"))
    case Str(s) => Ok(JStr(s))
    case Int(i) => Ok(JInt(i))
    case FloatValue(f) => Ok(JFloat(f))
    case Bool(b) => Ok(JBool(b))
    case Tensor(shape, item) =>
      if shape == [] || Product(shape) == 1 then
        (match item
         case IntItem(i) => Ok(JInt(i))
         case FloatItem(f) => Ok(JFloat(f))
         case BoolItem(b) => Ok(JBool(b)))
      else Ok(JStr("Tensor of shape " + ShapeString(shape)))
    case Mapping(items) =>
      (match FormatItems(items, [])
       case Ok(entries) => Ok(JObject(entries))
       case Err(e) => Err(e))
    case Iterable(elements) =>
      (match FormatList(elements)
       case Ok(js) => Ok(JList(js))
       case Err(e) => Err(e))
    case Other(repr) => Ok(JStr(repr))
  }

  /** The list comprehension over an iterable's elements. */
  function FormatList(vs: seq<Value>): (r: Result<seq<Json>, FormatError>)
    decreases vs
  {
    if vs == [] then Ok([])
    else
      match Format(vs[0])
      case Err(e) => Err(e)
      case Ok(j) =>
        match FormatList(vs[1..])
        case Err(e) => Err(e)
        case Ok(js) => Ok([j] + js)
  }

  /** Position of key `k` in a dict's entries, if present. */
  function KeyIndex(entries: seq<(Json, Json)>, k: Json): (r: Option<nat>)
    ensures r.Some? ==> r.value < |entries| && entries[r.value].0 == k
    ensures r.None? ==> forall i :: 0 <= i < |entries| ==> entries[i].0 != k
  {
    if entries == [] then None
    else if entries[|entries| - 1].0 == k then Some(|entries| - 1)
    else KeyIndex(entries[..|entries| - 1], k)
  }

  /** `d[k] = v` on a Python dict: an existing key keeps its place and takes the new value. */
  function DictInsert(entries: seq<(Json, Json)>, k: Json, v: Json): seq<(Json, Json)> {
    match KeyIndex(entries, k)
    case Some(i) => entries[i := (k, v)]
    case None => entries + [(k, v)]
  }

  /** One step of the dict comprehension: the normalised key and value of one item. */
  function FormatItem(item: Item): (r: Result<(Json, Json), FormatError>)
    decreases item
  {
    match Format(item.key)
    case Err(e) => Err(e)
    case Ok(k) =>
      match Format(item.val)
      case Err(e) => Err(e)
      case Ok(v) => if Hashable(k) then Ok((k, v)) else Err(UnhashableKey)
  }

  /** The dict comprehension over a mapping's items, inserting into `acc` in order. */
  function FormatItems(items: seq<Item>, acc: seq<(Json, Json)>): (r: Result<seq<(Json, Json)>, FormatError>)
    decreases items
  {
    if items == [] then Ok(acc)
    else
      match FormatItem(items[0])
      case Err(e) => Err(e)
      case Ok(kv) => FormatItems(items[1..], DictInsert(acc, kv.0, kv.1))
  }

  /** Dict entries with hashable, pairwise distinct keys. */
  predicate ValidEntries(entries: seq<(Json, Json)>) {
    && (forall i :: 0 <= i < |entries| ==> Hashable(entries[i].0))
    && (forall i, j :: 0 <= i < j < |entries| ==> entries[i].0 != entries[j].0)
  }

  /** What `json.dumps` accepts: every dict, at any depth, has hashable, distinct keys. */
  predicate Serializable(j: Json) {
    match j
    case JObject(entries) =>
      ValidEntries(entries) &&
      forall i :: 0 <= i < |entries| ==> Serializable(entries[i].0) && Serializable(entries[i].1)
    case JList(elements) => forall i :: 0 <= i < |elements| ==> Serializable(elements[i])
    case _ => true
  }

  // ---------------------------------------------------------------------------
  // Properties
  // ---------------------------------------------------------------------------

  /**
   * `None` becomes the string 'None', the primitive types are returned as they
   * are, and any other value becomes its `str`.
   */
  lemma FormatScalars(s: string, i: int, f: Float, b: bool, repr: string)
    ensures Format(NoneValue) == Ok(JStr("None"))
    ensures Format(Str(s)) == Ok(JStr(s))
    ensures Format(Int(i)) == Ok(JInt(i))
    ensures Format(FloatValue(f)) == Ok(JFloat(f))
    ensures Format(Bool(b)) == Ok(JBool(b))
    ensures Format(Other(repr)) == Ok(JStr(repr))
  {
  }

  /**
   * A tensor with a single element normalises as the scalar it holds would; any
   * other tensor becomes a description of its shape.
   */
  lemma FormatTensor(shape: seq<nat>, item: Scalar)
    ensures Product(shape) == 1 ==> Format(Tensor(shape, item)) == Format(ScalarValue(item))
    ensures Product(shape) != 1 ==>
      Format(Tensor(shape, item)) == Ok(JStr("Tensor of shape torch.Size([" + JoinDims(shape) + "])"))
  {
    if Product(shape) != 1 {
      TensorDescription(shape);
    }
  }

  lemma TensorDescription(shape: seq<nat>)
    ensures "Tensor of shape " + ShapeString(shape) == "Tensor of shape torch.Size([" + JoinDims(shape) + "])"
  {
    var dims := JoinDims(shape);
    assert ("Tensor of shape " + "torch.Size([") + dims + "])" == "Tensor of shape " + ("torch.Size([" + dims + "])");
  }

  /** A 2 x 3 tensor is described, not reduced. */
  lemma FormatTwoByThreeTensor(item: Scalar)
    ensures Format(Tensor([2, 3], item)) == Ok(JStr("Tensor of shape torch.Size([2, 3])"))
  {
    assert Product([2, 3]) == 6 by {
      assert [2, 3][..1] == [2];
      assert [2][..0] == [];
    }
    assert JoinDims([2, 3]) == "2, 3" by {
      assert [2, 3][1..] == [3];
      assert NatToString(2) == "2" && NatToString(3) == "3";
    }
    var shape: seq<nat> := [2, 3];
    FormatTensor(shape, item);
    assert "Tensor of shape torch.Size([" + JoinDims(shape) + "])" == "Tensor of shape torch.Size([2, 3])";
  }

  /**
   * An iterable becomes a list of the same length whose elements are the
   * normalised elements; it fails exactly when some element fails.
   */
  lemma {:induction false} FormatListElementwise(vs: seq<Value>)
    ensures FormatList(vs).Ok? <==> forall i :: 0 <= i < |vs| ==> Format(vs[i]).Ok?
    ensures FormatList(vs).Ok? ==>
      |FormatList(vs).value| == |vs| &&
      forall i :: 0 <= i < |vs| ==> FormatList(vs).value[i] == Format(vs[i]).value
  {
    if vs != [] {
      FormatListElementwise(vs[1..]);
      if FormatList(vs).Ok? {
        var js := FormatList(vs).value;
        forall i | 0 <= i < |vs|
          ensures js[i] == Format(vs[i]).value
        {
          if i > 0 { assert vs[1..][i - 1] == vs[i]; }
        }
      }
      if forall i :: 0 <= i < |vs| ==> Format(vs[i]).Ok? {
        assert forall i :: 0 <= i < |vs| - 1 ==> vs[1..][i] == vs[i + 1];
      }
    }
  }

  lemma FormatIterable(vs: seq<Value>)
    ensures Format(Iterable(vs)).Ok? <==> forall i :: 0 <= i < |vs| ==> Format(vs[i]).Ok?
    ensures Format(Iterable(vs)).Ok? ==>
      Format(Iterable(vs)).value.JList? &&
      |Format(Iterable(vs)).value.elements| == |vs| &&
      forall i :: 0 <= i < |vs| ==> Format(Iterable(vs)).value.elements[i] == Format(vs[i]).value
  {
    FormatListElementwise(vs);
  }

  /** An item of a mapping that normalises without error to a hashable key. */
  predicate ItemFormats(item: Item) {
    Format(item.key).Ok? && Format(item.val).Ok? && Hashable(Format(item.key).value)
  }

  /** The dict entry an item that normalises becomes. */
  function Entry(item: Item): (Json, Json)
    requires ItemFormats(item)
  {
    (Format(item.key).value, Format(item.val).value)
  }

  lemma DictInsertKeepsValid(entries: seq<(Json, Json)>, k: Json, v: Json)
    requires ValidEntries(entries) && Hashable(k)
    ensures ValidEntries(DictInsert(entries, k, v))
    ensures KeyIndex(entries, k).None? ==> DictInsert(entries, k, v) == entries + [(k, v)]
  {
  }

  /** Normalising a mapping fails exactly when some item's key or value fails or some key is unhashable. */
  lemma {:induction false} FormatItemsFails(items: seq<Item>, acc: seq<(Json, Json)>)
    ensures FormatItems(items, acc).Ok? <==> forall i :: 0 <= i < |items| ==> ItemFormats(items[i])
  {
    if items != [] {
      if ItemFormats(items[0]) {
        var k, v := Format(items[0].key).value, Format(items[0].val).value;
        FormatItemsFails(items[1..], DictInsert(acc, k, v));
      }
      assert forall i :: 0 <= i < |items| - 1 ==> items[1..][i] == items[i + 1];
    }
  }

  /** The entries of items that all normalise, in order. */
  function Entries(items: seq<Item>): (r: seq<(Json, Json)>)
    requires forall i :: 0 <= i < |items| ==> ItemFormats(items[i])
    ensures |r| == |items| && forall i :: 0 <= i < |items| ==> r[i] == Entry(items[i])
  {
    seq(|items|, i requires 0 <= i < |items| => Entry(items[i]))
  }

  /** `d[k] = v` for each entry in turn. */
  function InsertAll(acc: seq<(Json, Json)>, kvs: seq<(Json, Json)>): seq<(Json, Json)>
    decreases |kvs|
  {
    if kvs == [] then acc else InsertAll(DictInsert(acc, kvs[0].0, kvs[0].1), kvs[1..])
  }

  /** When every item normalises, the dict comprehension inserts the items' entries in order. */
  lemma {:induction false} FormatItemsInsertAll(items: seq<Item>, acc: seq<(Json, Json)>)
    requires forall i :: 0 <= i < |items| ==> ItemFormats(items[i])
    ensures FormatItems(items, acc) == Ok(InsertAll(acc, Entries(items)))
  {
    if items != [] {
      forall i | 0 <= i < |items| - 1 ensures ItemFormats(items[1..][i]) {
        assert items[1..][i] == items[i + 1];
      }
      var e := Entry(items[0]);
      FormatItemsInsertAll(items[1..], DictInsert(acc, e.0, e.1));
      assert Entries(items)[1..] == Entries(items[1..]) by {
        forall i | 0 <= i < |items| - 1 ensures Entries(items)[1..][i] == Entries(items[1..])[i] {
          assert items[1..][i] == items[i + 1];
        }
      }
      assert FormatItem(items[0]) == Ok(e);
    }
  }

  /** Keys that are hashable, pairwise distinct and new to the dict are appended in order. */
  lemma {:induction false} InsertAllNewKeys(acc: seq<(Json, Json)>, kvs: seq<(Json, Json)>)
    requires ValidEntries(acc)
    requires forall i :: 0 <= i < |kvs| ==> Hashable(kvs[i].0)
    requires forall i, j :: 0 <= i < j < |kvs| ==> kvs[i].0 != kvs[j].0
    requires forall i, j :: 0 <= i < |acc| && 0 <= j < |kvs| ==> acc[i].0 != kvs[j].0
    ensures InsertAll(acc, kvs) == acc + kvs
    decreases |kvs|
  {
    if kvs != [] {
      var k, v := kvs[0].0, kvs[0].1;
      assert KeyIndex(acc, k).None?;
      DictInsertKeepsValid(acc, k, v);
      NewKeysTail(acc, kvs);
      InsertAllNewKeys(acc + [kvs[0]], kvs[1..]);
      AppendFirst(acc, kvs);
    }
  }

  lemma NewKeysTail(acc: seq<(Json, Json)>, kvs: seq<(Json, Json)>)
    requires kvs != []
    requires forall i :: 0 <= i < |kvs| ==> Hashable(kvs[i].0)
    requires forall i, j :: 0 <= i < j < |kvs| ==> kvs[i].0 != kvs[j].0
    requires forall i, j :: 0 <= i < |acc| && 0 <= j < |kvs| ==> acc[i].0 != kvs[j].0
    ensures forall i :: 0 <= i < |kvs| - 1 ==> Hashable(kvs[1..][i].0)
    ensures forall i, j :: 0 <= i < j < |kvs| - 1 ==> kvs[1..][i].0 != kvs[1..][j].0
    ensures forall i, j :: 0 <= i < |acc| + 1 && 0 <= j < |kvs| - 1 ==> (acc + [kvs[0]])[i].0 != kvs[1..][j].0
  {
    var acc', rest := acc + [kvs[0]], kvs[1..];
    forall i | 0 <= i < |rest| ensures Hashable(rest[i].0) {
      assert rest[i] == kvs[i + 1];
    }
    forall i, j | 0 <= i < |acc'| && 0 <= j < |rest| ensures acc'[i].0 != rest[j].0 {
      assert rest[j] == kvs[j + 1];
    }
    forall i, j | 0 <= i < j < |rest| ensures rest[i].0 != rest[j].0 {
      assert rest[i] == kvs[i + 1] && rest[j] == kvs[j + 1];
    }
  }

  lemma AppendFirst(acc: seq<(Json, Json)>, kvs: seq<(Json, Json)>)
    requires kvs != []
    ensures acc + [kvs[0]] + kvs[1..] == acc + kvs
  {
    assert [kvs[0]] + kvs[1..] == kvs;
  }

  /** Distinct normalised keys, new to the dict, make keys `InsertAllNewKeys` appends. */
  lemma EntryKeysNew(items: seq<Item>, acc: seq<(Json, Json)>)
    requires forall i :: 0 <= i < |items| ==> ItemFormats(items[i])
    requires forall i, j :: 0 <= i < j < |items| ==> Format(items[i].key) != Format(items[j].key)
    requires forall i, j :: 0 <= i < |acc| && 0 <= j < |items| ==> Ok(acc[i].0) != Format(items[j].key)
    ensures forall i :: 0 <= i < |items| ==> Hashable(Entries(items)[i].0)
    ensures forall i, j :: 0 <= i < j < |items| ==> Entries(items)[i].0 != Entries(items)[j].0
    ensures forall i, j :: 0 <= i < |acc| && 0 <= j < |items| ==> acc[i].0 != Entries(items)[j].0
  {
    var kvs := Entries(items);
    forall i, j | 0 <= i < j < |items| ensures kvs[i].0 != kvs[j].0 {
      assert Format(items[i].key) != Format(items[j].key);
    }
    forall i, j | 0 <= i < |acc| && 0 <= j < |items| ensures acc[i].0 != kvs[j].0 {
      assert Ok(acc[i].0) != Format(items[j].key);
    }
  }

  /**
   * When the normalised keys are pairwise distinct, a mapping keeps its size:
   * entry i of the dict is the normalised key and value of item i.
   */
  lemma FormatItemsDistinct(items: seq<Item>, acc: seq<(Json, Json)>)
    requires ValidEntries(acc)
    requires forall i :: 0 <= i < |items| ==> ItemFormats(items[i])
    requires forall i, j :: 0 <= i < j < |items| ==> Format(items[i].key) != Format(items[j].key)
    requires forall i, j :: 0 <= i < |acc| && 0 <= j < |items| ==> Ok(acc[i].0) != Format(items[j].key)
    ensures FormatItems(items, acc).Ok?
    ensures |FormatItems(items, acc).value| == |acc| + |items|
    ensures FormatItems(items, acc).value[..|acc|] == acc
    ensures forall i :: 0 <= i < |items| ==>
      ItemFormats(items[i]) && FormatItems(items, acc).value[|acc| + i] == Entry(items[i])
  {
    FormatItemsInsertAll(items, acc);
    EntryKeysNew(items, acc);
    InsertAllNewKeys(acc, Entries(items));
    var r := acc + Entries(items);
    assert r[..|acc|] == acc;
    assert forall i :: 0 <= i < |items| ==> r[|acc| + i] == Entries(items)[i];
  }

  lemma FormatMappingDistinctKeys(items: seq<Item>)
    requires forall i :: 0 <= i < |items| ==> ItemFormats(items[i])
    requires forall i, j :: 0 <= i < j < |items| ==> Format(items[i].key) != Format(items[j].key)
    ensures Format(Mapping(items)).Ok? && Format(Mapping(items)).value.JObject?
    ensures |Format(Mapping(items)).value.entries| == |items|
    ensures forall i :: 0 <= i < |items| ==>
      ItemFormats(items[i]) &&
      Format(Mapping(items)).value.entries[i] == (Format(items[i].key).value, Format(items[i].val).value)
  {
    FormatItemsDistinct(items, []);
  }

  lemma FormatMappingFails(items: seq<Item>)
    ensures Format(Mapping(items)).Err? <==> exists i :: 0 <= i < |items| && !ItemFormats(items[i])
  {
    FormatItemsFails(items, []);
  }

  lemma {:induction false} FormatItemsValid(items: seq<Item>, acc: seq<(Json, Json)>)
    requires ValidEntries(acc)
    ensures FormatItems(items, acc).Ok? ==> ValidEntries(FormatItems(items, acc).value)
  {
    if items != [] && ItemFormats(items[0]) {
      var k, v := Format(items[0].key).value, Format(items[0].val).value;
      DictInsertKeepsValid(acc, k, v);
      FormatItemsValid(items[1..], DictInsert(acc, k, v));
    }
  }

  /**
   * When `acc` and the normalised keys and values of every item are
   * serialisable, so is every entry of the dict the comprehension builds.
   */
  lemma {:induction false} FormatItemsEntriesFrom(items: seq<Item>, acc: seq<(Json, Json)>)
    requires forall i :: 0 <= i < |acc| ==> Serializable(acc[i].0) && Serializable(acc[i].1)
    requires forall i :: 0 <= i < |items| ==>
      (Format(items[i].key).Ok? ==> Serializable(Format(items[i].key).value)) &&
      (Format(items[i].val).Ok? ==> Serializable(Format(items[i].val).value))
    ensures FormatItems(items, acc).Ok? ==>
      forall i :: 0 <= i < |FormatItems(items, acc).value| ==>
        Serializable(FormatItems(items, acc).value[i].0) && Serializable(FormatItems(items, acc).value[i].1)
  {
    if items != [] && ItemFormats(items[0]) {
      var k, v := Format(items[0].key).value, Format(items[0].val).value;
      var acc' := DictInsert(acc, k, v);
      forall i | 0 <= i < |acc'| ensures Serializable(acc'[i].0) && Serializable(acc'[i].1) {
      }
      forall i | 0 <= i < |items| - 1
        ensures (Format(items[1..][i].key).Ok? ==> Serializable(Format(items[1..][i].key).value)) &&
                (Format(items[1..][i].val).Ok? ==> Serializable(Format(items[1..][i].val).value))
      {
        assert items[1..][i] == items[i + 1];
      }
      FormatItemsEntriesFrom(items[1..], acc');
    }
  }

  /**
   * Whatever the normaliser returns is serialisable: every dict in it, at any
   * depth, has hashable and pairwise distinct keys.
   */
  lemma {:induction false} FormatSerializable(v: Value)
    ensures Format(v).Ok? ==> Serializable(Format(v).value)
    decreases v
  {
    match v
    case Mapping(items) =>
      forall i | 0 <= i < |items|
        ensures (Format(items[i].key).Ok? ==> Serializable(Format(items[i].key).value)) &&
                (Format(items[i].val).Ok? ==> Serializable(Format(items[i].val).value))
      {
        FormatSerializable(items[i].key);
        FormatSerializable(items[i].val);
      }
      FormatItemsValid(items, []);
      FormatItemsEntriesFrom(items, []);
    case Iterable(elements) =>
      FormatListElementwise(elements);
      forall i | 0 <= i < |elements|
        ensures Format(elements[i]).Ok? ==> Serializable(Format(elements[i]).value)
      {
        FormatSerializable(elements[i]);
      }
    case _ =>
  }
}
