/** Pruning the YAML that users edit (internal/instance/manager.go), and encoding and decoding values as YAML. */
module EditableYaml {
  import opened Wrappers
  import opened Text

  // ---------------------------------------------------------------- the tree

  datatype Scalar = Str(s: string) | Int(n: int) | Bool(b: bool) {
    /** The text of the scalar's node. */
    function Value(): string {
      match this
      case Str(s) => s
      case Int(n) => if n < 0 then "-" + Decimal(-n) else Decimal(n)
      case Bool(b) => if b then "true" else "false"
    }
  }

  datatype Node = Leaf(scalar: Scalar) | Mapping(entries: Entries) | Sequence(items: Nodes) | Alias
  datatype Entries = NoEntry | Entry(key: string, value: Node, rest: Entries)
  datatype Nodes = NoItem | Item(head: Node, rest: Nodes)

  function Find(es: Entries, key: string): Option<Node> {
    match es
    case NoEntry => None
    case Entry(k, value, rest) => if k == key then Some(value) else Find(rest, key)
  }

  /** mappingScalarValue: the first scalar of that key. */
  function ScalarValue(es: Entries, key: string): string {
    match es
    case NoEntry => ""
    case Entry(k, value, rest) => if k == key && value.Leaf? then value.scalar.Value() else ScalarValue(rest, key)
  }

  function Last(path: seq<string>): string {
    if path == [] then "" else path[|path| - 1]
  }

  predicate HasDefaultTag(es: Entries) {
    var name, kind := ScalarValue(es, "name"), ScalarValue(es, "type");
    name != "" && kind != "" && ScalarValue(es, "tag") == kind + "-" + name
  }

  /** isNoauthAuthNode */
  predicate IsNoauth(path: seq<string>, es: Entries) {
    && Last(path) == "auth"
    && ScalarValue(es, "type") == "noauth" && ScalarValue(es, "username") == "" && ScalarValue(es, "password") == ""
  }

  /** keepFalseScalar */
  predicate KeepFalse(path: seq<string>) {
    && path != [] && path[|path| - 1] == "enabled"
    && (|path| == 1 || path[|path| - 2] in ["api", "traffic"])
  }

  /** isEditableEmptyScalar */
  predicate EmptyScalar(path: seq<string>, scalar: Scalar) {
    match scalar
    case Str(_) => scalar.Value() == ""
    case Int(_) => scalar.Value() == "0"
    case Bool(_) => scalar.Value() == "false" && !KeepFalse(path)
  }

  /** pruneEditableYAMLNode: the pruned node, and whether its parent leaves it out. */
  function Prune(path: seq<string>, node: Node): (Node, bool)
    decreases node
  {
    match node
    case Leaf(scalar) => (node, EmptyScalar(path, scalar))
    case Mapping(es) =>
      var next := PruneEntries(path, es, HasDefaultTag(es));
      (Mapping(next), next == NoEntry || IsNoauth(path, next))
    case Sequence(items) =>
      var next := PruneItems(path, items);
      (Sequence(next), next == NoItem)
    case Alias => (node, false)
  }

  /** The entries that stay; removeDefaultTagField takes the tag out first if it is the default one. */
  function PruneEntries(path: seq<string>, es: Entries, untag: bool): Entries
    decreases es
  {
    match es
    case NoEntry => NoEntry
    case Entry(key, value, rest) =>
      var next := PruneEntries(path, rest, untag);
      if untag && key == "tag" then next
      else
        var (pruned, out) := Prune(path + [key], value);
        if out then next else Entry(key, pruned, next)
  }

  function PruneItems(path: seq<string>, items: Nodes): Nodes
    decreases items
  {
    match items
    case NoItem => NoItem
    case Item(head, rest) =>
      var (pruned, out) := Prune(path, head);
      if out then PruneItems(path, rest) else Item(pruned, PruneItems(path, rest))
  }

  // ---------------------------------------------------------------- idempotence

  predicate HasKey(es: Entries, key: string) {
    es.Entry? && (es.key == key || HasKey(es.rest, key))
  }

  /** No mapping has a key twice. */
  predicate DistinctKeys(node: Node) {
    match node
    case Leaf(_) => true
    case Mapping(es) => DistinctEntries(es)
    case Sequence(items) => DistinctItems(items)
    case Alias => true
  }

  predicate DistinctEntries(es: Entries) {
    es.Entry? ==> DistinctKeys(es.value) && !HasKey(es.rest, es.key) && DistinctEntries(es.rest)
  }

  predicate DistinctItems(items: Nodes) {
    items.Item? ==> DistinctKeys(items.head) && DistinctItems(items.rest)
  }

  lemma {:induction false} PrunedKeys(path: seq<string>, es: Entries, untag: bool, key: string)
    ensures HasKey(PruneEntries(path, es, untag), key) ==> HasKey(es, key)
    ensures untag ==> !HasKey(PruneEntries(path, es, untag), "tag")
  {
    if es.NoEntry? {
    } else {
      PrunedKeys(path, es.rest, untag, key);
    }
  }

  lemma {:induction false} NoKeyNoValue(es: Entries, key: string)
    requires !HasKey(es, key)
    ensures ScalarValue(es, key) == "" && Find(es, key) == None
  {
    if es.NoEntry? {
    } else {
      NoKeyNoValue(es.rest, key);
    }
  }

  lemma PruneKeepsKind(path: seq<string>, node: Node)
    ensures Prune(path, node).0.Leaf? <==> node.Leaf?
    ensures node.Leaf? ==> Prune(path, node).0 == node
  {}

  /** A scalar of the pruned mapping reads as before, or is gone. */
  lemma {:induction false} PrunedScalar(path: seq<string>, es: Entries, untag: bool, key: string)
    requires DistinctEntries(es)
    ensures var value := ScalarValue(PruneEntries(path, es, untag), key);
            value == "" || value == ScalarValue(es, key)
  {
    if es.NoEntry? {
    } else {
      PrunedScalar(path, es.rest, untag, key);
      PruneKeepsKind(path + [es.key], es.value);
      if es.key == key {
        PrunedKeys(path, es.rest, untag, key);
        NoKeyNoValue(PruneEntries(path, es.rest, untag), key);
      }
    }
  }

  /** After pruning there is no default tag left to remove. */
  lemma NoDefaultTagLeft(path: seq<string>, es: Entries)
    requires DistinctEntries(es)
    ensures !HasDefaultTag(PruneEntries(path, es, HasDefaultTag(es)))
  {
    var untag := HasDefaultTag(es);
    PrunedScalar(path, es, untag, "name");
    PrunedScalar(path, es, untag, "type");
    PrunedScalar(path, es, untag, "tag");
    PrunedKeys(path, es, untag, "tag");
    if untag {
      NoKeyNoValue(PruneEntries(path, es, untag), "tag");
    }
  }

  /** Nothing in the tree can be left out. */
  predicate Lean(path: seq<string>, node: Node)
    decreases node
  {
    match node
    case Leaf(scalar) => !EmptyScalar(path, scalar)
    case Mapping(es) => es != NoEntry && !IsNoauth(path, es) && !HasDefaultTag(es) && LeanEntries(path, es)
    case Sequence(items) => items != NoItem && LeanItems(path, items)
    case Alias => true
  }

  predicate LeanEntries(path: seq<string>, es: Entries)
    decreases es
  {
    es.Entry? ==> Lean(path + [es.key], es.value) && LeanEntries(path, es.rest)
  }

  predicate LeanItems(path: seq<string>, items: Nodes)
    decreases items
  {
    items.Item? ==> Lean(path, items.head) && LeanItems(path, items.rest)
  }

  /** What pruning keeps is lean: no empty scalar, mapping or sequence, no default tag and no noauth node is left in it. */
  lemma {:induction false} PrunedIsLean(path: seq<string>, node: Node)
    requires DistinctKeys(node) && !Prune(path, node).1
    ensures Lean(path, Prune(path, node).0)
    decreases node
  {
    match node
    case Leaf(_) =>
    case Mapping(es) =>
      NoDefaultTagLeft(path, es);
      PrunedEntriesAreLean(path, es, HasDefaultTag(es));
    case Sequence(items) => PrunedItemsAreLean(path, items);
    case Alias =>
  }

  lemma {:induction false} PrunedEntriesAreLean(path: seq<string>, es: Entries, untag: bool)
    requires DistinctEntries(es)
    ensures LeanEntries(path, PruneEntries(path, es, untag))
    decreases es
  {
    if es.NoEntry? {
    } else {
      PrunedEntriesAreLean(path, es.rest, untag);
      if !Prune(path + [es.key], es.value).1 {
        PrunedIsLean(path + [es.key], es.value);
      }
    }
  }

  lemma {:induction false} PrunedItemsAreLean(path: seq<string>, items: Nodes)
    requires DistinctItems(items)
    ensures LeanItems(path, PruneItems(path, items))
    decreases items
  {
    if items.NoItem? {
    } else {
      PrunedItemsAreLean(path, items.rest);
      if !Prune(path, items.head).1 {
        PrunedIsLean(path, items.head);
      }
    }
  }

  /** Pruning is idempotent on trees without repeated keys. */
  lemma {:induction false} PruneIsIdempotent(path: seq<string>, node: Node)
    requires DistinctKeys(node)
    ensures Prune(path, Prune(path, node).0) == Prune(path, node)
    decreases node
  {
    match node
    case Leaf(_) =>
    case Mapping(es) =>
      NoDefaultTagLeft(path, es);
      EntriesStayPruned(path, es, HasDefaultTag(es));
    case Sequence(items) => ItemsStayPruned(path, items);
    case Alias =>
  }

  lemma {:induction false} EntriesStayPruned(path: seq<string>, es: Entries, untag: bool)
    requires DistinctEntries(es)
    ensures var next := PruneEntries(path, es, untag);
            PruneEntries(path, next, false) == next
    decreases es
  {
    if es.NoEntry? {
    } else {
      PruneIsIdempotent(path + [es.key], es.value);
      EntriesStayPruned(path, es.rest, untag);
    }
  }

  lemma {:induction false} ItemsStayPruned(path: seq<string>, items: Nodes)
    requires DistinctItems(items)
    ensures PruneItems(path, PruneItems(path, items)) == PruneItems(path, items)
    decreases items
  {
    if items.NoItem? {
    } else {
      PruneIsIdempotent(path, items.head);
      ItemsStayPruned(path, items.rest);
    }
  }

  /** With a repeated key, which YAML text can have and an encoded value cannot, it is not: dropping the first name
      uncovers a second, which makes the tag a default one. */
  lemma RepeatedKeyBreaksIdempotence()
    ensures exists es :: Prune([], Prune([], Mapping(es)).0) != Prune([], Mapping(es))
  {
    var tail := Entry("type", Leaf(Str("b")), Entry("tag", Leaf(Str("b-a")), NoEntry));
    var once := Entry("name", Leaf(Str("a")), tail);
    var es := Entry("name", Leaf(Str("")), once);
    assert "b" + "-" + "a" == "b-a";
    assert HasDefaultTag(once);
    assert Prune([], Mapping(es)).0 == Mapping(once);
    assert Prune([], Mapping(once)).0 == Mapping(Entry("name", Leaf(Str("a")), Entry("type", Leaf(Str("b")), NoEntry)));
  }

  // ---------------------------------------------------------------- encoding and decoding

  /** The shape of a Go type, and its values. */
  datatype Schema = OfStr | OfInt | OfBool | OfStruct(fields: Fields) | OfList(item: Schema) | OfDict
  datatype Fields = NoField | Field(name: string, schema: Schema, rest: Fields)
  datatype Value = VStr(s: string) | VInt(n: int) | VBool(b: bool) | VStruct(values: Values) | VList(values: Values) | VDict(entries: Entries)
  datatype Values = NoValue | More(head: Value, rest: Values)

  /** A map from strings to strings. */
  predicate IsTextMap(es: Entries) {
    es.Entry? ==> es.value.Leaf? && es.value.scalar.Str? && !HasKey(es.rest, es.key) && IsTextMap(es.rest)
  }

  predicate Conforms(schema: Schema, v: Value) {
    match schema
    case OfStr => v.VStr?
    case OfInt => v.VInt?
    case OfBool => v.VBool?
    case OfStruct(fields) => v.VStruct? && FieldsConform(fields, v.values)
    case OfList(item) => v.VList? && ItemsConform(item, v.values)
    case OfDict => v.VDict? && IsTextMap(v.entries)
  }

  predicate FieldsConform(fields: Fields, vs: Values) {
    match fields
    case NoField => vs == NoValue
    case Field(_, schema, rest) => vs.More? && Conforms(schema, vs.head) && FieldsConform(rest, vs.rest)
  }

  predicate ItemsConform(item: Schema, vs: Values)
    decreases item, vs
  {
    vs.More? ==> Conforms(item, vs.head) && ItemsConform(item, vs.rest)
  }

  /** Go's zero value. */
  function Zero(schema: Schema): (v: Value)
    ensures Conforms(schema, v)
  {
    match schema
    case OfStr => VStr("")
    case OfInt => VInt(0)
    case OfBool => VBool(false)
    case OfStruct(fields) => VStruct(ZeroFields(fields))
    case OfList(_) => VList(NoValue)
    case OfDict => VDict(NoEntry)
  }

  function ZeroFields(fields: Fields): (vs: Values)
    ensures FieldsConform(fields, vs)
  {
    match fields
    case NoField => NoValue
    case Field(_, schema, rest) => More(Zero(schema), ZeroFields(rest))
  }

  function Encode(schema: Schema, v: Value): Node
    requires Conforms(schema, v)
    decreases v
  {
    match v
    case VStr(s) => Leaf(Str(s))
    case VInt(n) => Leaf(Int(n))
    case VBool(b) => Leaf(Bool(b))
    case VStruct(vs) => Mapping(EncodeFields(schema.fields, vs))
    case VList(vs) => Sequence(EncodeItems(schema.item, vs))
    case VDict(es) => Mapping(es)
  }

  function EncodeFields(fields: Fields, vs: Values): Entries
    requires FieldsConform(fields, vs)
    decreases vs
  {
    match fields
    case NoField => NoEntry
    case Field(name, schema, rest) => Entry(name, Encode(schema, vs.head), EncodeFields(rest, vs.rest))
  }

  function EncodeItems(item: Schema, vs: Values): Nodes
    requires ItemsConform(item, vs)
    decreases vs
  {
    if vs.NoValue? then NoItem else Item(Encode(item, vs.head), EncodeItems(item, vs.rest))
  }

  /** Decoding over a value: fields that are missing keep it, list items start from zero. */
  function Decode(schema: Schema, node: Node, d: Value): (v: Value)
    requires Conforms(schema, d)
    ensures Conforms(schema, v)
    decreases schema, 0, node
  {
    match (schema, node)
    case (OfStr, Leaf(Str(s))) => VStr(s)
    case (OfInt, Leaf(Int(n))) => VInt(n)
    case (OfBool, Leaf(Bool(b))) => VBool(b)
    case (OfStruct(fields), Mapping(es)) => VStruct(DecodeFields(fields, es, d.values))
    case (OfList(item), Sequence(items)) => VList(DecodeItems(item, items))
    case (OfDict, Mapping(es)) => if IsTextMap(es) then VDict(es) else d
    case _ => d
  }

  function DecodeFields(fields: Fields, es: Entries, ds: Values): (vs: Values)
    requires FieldsConform(fields, ds)
    ensures FieldsConform(fields, vs)
    decreases fields, 0, es
  {
    match fields
    case NoField => NoValue
    case Field(name, schema, rest) =>
      var found := Find(es, name);
      More(if found.Some? then Decode(schema, found.value, ds.head) else ds.head, DecodeFields(rest, es, ds.rest))
  }

  function DecodeItems(item: Schema, items: Nodes): (vs: Values)
    ensures ItemsConform(item, vs)
    decreases item, 1, items
  {
    if items.NoItem? then NoValue else More(Decode(item, items.head, Zero(item)), DecodeItems(item, items.rest))
  }

  predicate HasField(fields: Fields, name: string) {
    fields.Field? && (fields.name == name || HasField(fields.rest, name))
  }

  predicate DistinctFields(fields: Fields) {
    fields.Field? ==> !HasField(fields.rest, fields.name) && DistinctFields(fields.rest)
  }

  /** No Go type has two fields of one name. */
  predicate DistinctNames(schema: Schema) {
    match schema
    case OfStruct(fields) => DistinctFields(fields) && DistinctInFields(fields)
    case OfList(item) => DistinctNames(item)
    case _ => true
  }

  predicate DistinctInFields(fields: Fields) {
    fields.Field? ==> DistinctNames(fields.schema) && DistinctInFields(fields.rest)
  }

  lemma {:induction false} EncodedKeys(fields: Fields, vs: Values, name: string)
    requires FieldsConform(fields, vs)
    ensures HasKey(EncodeFields(fields, vs), name) <==> HasField(fields, name)
  {
    if fields.NoField? {
    } else {
      EncodedKeys(fields.rest, vs.rest, name);
    }
  }

  /** Encoding repeats no key. */
  lemma {:induction false} EncodedKeysAreDistinct(schema: Schema, v: Value)
    requires Conforms(schema, v) && DistinctNames(schema)
    ensures DistinctKeys(Encode(schema, v))
    decreases v
  {
    match v
    case VStruct(vs) => EncodedFieldsAreDistinct(schema.fields, vs);
    case VList(vs) => EncodedItemsAreDistinct(schema.item, vs);
    case VDict(es) => TextKeysAreDistinct(es);
    case _ =>
  }

  lemma {:induction false} EncodedFieldsAreDistinct(fields: Fields, vs: Values)
    requires FieldsConform(fields, vs) && DistinctFields(fields) && DistinctInFields(fields)
    ensures DistinctEntries(EncodeFields(fields, vs))
    decreases vs
  {
    if fields.NoField? {
    } else {
      EncodedKeysAreDistinct(fields.schema, vs.head);
      EncodedKeys(fields.rest, vs.rest, fields.name);
      EncodedFieldsAreDistinct(fields.rest, vs.rest);
    }
  }

  lemma {:induction false} EncodedItemsAreDistinct(item: Schema, vs: Values)
    requires ItemsConform(item, vs) && DistinctNames(item)
    ensures DistinctItems(EncodeItems(item, vs))
    decreases vs
  {
    if vs.NoValue? {
    } else {
      EncodedKeysAreDistinct(item, vs.head);
      EncodedItemsAreDistinct(item, vs.rest);
    }
  }

  lemma {:induction false} TextKeysAreDistinct(es: Entries)
    requires IsTextMap(es)
    ensures DistinctEntries(es)
  {
    if es.NoEntry? {
    } else {
      TextKeysAreDistinct(es.rest);
    }
  }
}
