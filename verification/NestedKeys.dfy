/** Nested translation maps and their flat form with dotted keys. */
module NestedKeys {
  import opened Text

  /** An object or `Map` in insertion order; keys are distinct. */
  datatype Binding<+V> = Binding(key: string, value: V)

  datatype Tree = Leaf(text: string) | Node(entries: seq<Binding<Tree>>)

  type Entries = seq<Binding<Tree>>
  type Flat = seq<Binding<string>>
  type Path = seq<string>

  datatype Located = Located(path: Path, text: string)

  // Objects and maps -------------------------------------------------------------

  /** Assigning a property: in place when the key is there, at the end otherwise. */
  function Put<V>(bindings: seq<Binding<V>>, key: string, value: V): seq<Binding<V>> {
    if bindings == [] then [Binding(key, value)]
    else if bindings[0].key == key then [Binding(key, value)] + bindings[1..]
    else [bindings[0]] + Put(bindings[1..], key, value)
  }

  predicate Has<V>(bindings: seq<Binding<V>>, key: string) {
    exists i :: 0 <= i < |bindings| && bindings[i].key == key
  }

  /** The sub-object at `key`; anything else there, or nothing, counts as empty. */
  function SubEntries(entries: Entries, key: string): Entries {
    if entries == [] then []
    else if entries[0].key == key then (if entries[0].value.Node? then entries[0].value.entries else [])
    else SubEntries(entries[1..], key)
  }

  // The code -----------------------------------------------------------------------

  function FullKey(prefix: string, key: string): string {
    if prefix != "" then prefix + "." + key else key
  }

  function FlattenInto(entries: Entries, prefix: string, out: Flat): Flat
    decreases entries
  {
    if entries == [] then out
    else
      var fullKey := FullKey(prefix, entries[0].key);
      var next :=
        match entries[0].value
        case Leaf(text) => Put(out, fullKey, text)
        case Node(nested) => FlattenInto(nested, fullKey, out);
      FlattenInto(entries[1..], prefix, next)
  }

  /** The properties that an empty object finds on its prototype, all of them objects or functions. */
  predicate Inherited(key: string) {
    key in {"constructor", "hasOwnProperty", "isPrototypeOf", "propertyIsEnumerable", "toLocaleString", "toString",
            "valueOf", "__defineGetter__", "__defineSetter__", "__lookupGetter__", "__lookupSetter__", "__proto__"}
  }

  /** The inherited property with a setter, which ignores a string; assigning to any other one makes a property. */
  predicate HasSetter(key: string) {
    key == "__proto__"
  }

  /** A value whose path runs into something inherited is set there, and the tree stays without it. */
  function SetPath(root: Entries, path: Path, text: string): Entries
    decreases |path|
  {
    if path == [] then root
    else
      var key := path[0];
      if |path| == 1 then
        if HasSetter(key) && !Has(root, key) then root else Put(root, key, Leaf(text))
      else if Inherited(key) && !Has(root, key) then root
      else Put(root, key, Node(SetPath(SubEntries(root, key), path[1..], text)))
  }

  function SetNestedValue(root: Entries, dottedKey: string, text: string): Entries {
    SetPath(root, Split(dottedKey, '.'), text)
  }

  function RebuildOnto(root: Entries, flat: Flat): Entries
    decreases |flat|
  {
    if flat == [] then root else RebuildOnto(SetNestedValue(root, flat[0].key, flat[0].value), flat[1..])
  }

  function Flatten(entries: Entries): Flat {
    FlattenInto(entries, "", [])
  }

  function Rebuild(flat: Flat): Entries {
    RebuildOnto([], flat)
  }

  method FlattenTranslations(entries: Entries, prefix: string, out: Flat) returns (r: Flat)
    ensures r == FlattenInto(entries, prefix, out)
    decreases entries
  {
    r := out;
    assert entries[0..] == entries;
    for i := 0 to |entries|
      invariant FlattenInto(entries[i..], prefix, r) == FlattenInto(entries, prefix, out)
    {
      assert entries[i..][0] == entries[i] && entries[i..][1..] == entries[i + 1..];
      var fullKey := if prefix != "" then prefix + "." + entries[i].key else entries[i].key;
      match entries[i].value {
        case Leaf(text) => r := Put(r, fullKey, text);
        case Node(nested) => r := FlattenTranslations(nested, fullKey, r);
      }
    }
  }

  method RebuildMap(flat: Flat) returns (root: Entries)
    ensures root == Rebuild(flat)
  {
    root := [];
    assert flat[0..] == flat;
    for i := 0 to |flat|
      invariant RebuildOnto(root, flat[i..]) == Rebuild(flat)
    {
      assert flat[i..][0] == flat[i] && flat[i..][1..] == flat[i + 1..];
      root := SetNestedValue(root, flat[i].key, flat[i].value);
    }
  }

  // The leaves of a tree ---------------------------------------------------------------

  function Under(key: string, leaves: seq<Located>): seq<Located> {
    if leaves == [] then []
    else [Located([key] + leaves[0].path, leaves[0].text)] + Under(key, leaves[1..])
  }

  function LeavesAt(key: string, tree: Tree): seq<Located>
    decreases tree
  {
    match tree
    case Leaf(text) => [Located([key], text)]
    case Node(nested) => Under(key, Leaves(nested))
  }

  function Leaves(entries: Entries): seq<Located>
    decreases entries
  {
    if entries == [] then [] else LeavesAt(entries[0].key, entries[0].value) + Leaves(entries[1..])
  }

  function SetAll(root: Entries, leaves: seq<Located>): Entries
    decreases |leaves|
  {
    if leaves == [] then root else SetAll(SetPath(root, leaves[0].path, leaves[0].text), leaves[1..])
  }

  /** Distinct keys and no empty sub-objects, at every level. */
  predicate WellShaped(entries: Entries)
    decreases entries
  {
    entries == [] ||
    (&& !Has(entries[1..], entries[0].key)
     && (entries[0].value.Node? ==> entries[0].value.entries != [] && WellShaped(entries[0].value.entries))
     && WellShaped(entries[1..]))
  }

  /** No sub-object has an inherited name, and no text a name with a setter. */
  predicate OwnKeys(entries: Entries)
    decreases entries
  {
    entries == [] ||
    (&& (match entries[0].value
         case Leaf(_) => !HasSetter(entries[0].key)
         case Node(nested) => !Inherited(entries[0].key) && OwnKeys(nested))
     && OwnKeys(entries[1..]))
  }

  // Setting the leaves of a tree in order rebuilds it ------------------------------------

  lemma HasTail<V>(bindings: seq<Binding<V>>, key: string)
    requires bindings != []
    ensures Has(bindings, key) <==> bindings[0].key == key || Has(bindings[1..], key)
  {
    HeadTail(bindings);
    HasAppend([bindings[0]], bindings[1..], key);
    assert [bindings[0]][0] == bindings[0];
  }

  lemma {:induction false} PutNew<V>(bindings: seq<Binding<V>>, key: string, value: V)
    requires !Has(bindings, key)
    ensures Put(bindings, key, value) == bindings + [Binding(key, value)]
  {
    if bindings == [] {
    } else {
      HasTail(bindings, key);
      PutNew(bindings[1..], key, value);
      HeadTail(bindings);
      Assoc([bindings[0]], bindings[1..], [Binding(key, value)]);
      hide Has;
    }
  }

  lemma {:induction false} PutLast<V>(bindings: seq<Binding<V>>, key: string, before: V, value: V)
    requires !Has(bindings, key)
    ensures Put(bindings + [Binding(key, before)], key, value) == bindings + [Binding(key, value)]
  {
    var all := bindings + [Binding(key, before)];
    if bindings == [] {
    } else {
      assert all[0] == bindings[0] && all[1..] == bindings[1..] + [Binding(key, before)];
      assert bindings[0].key != key;
      HasTail(bindings, key);
      PutLast(bindings[1..], key, before, value);
    }
  }

  lemma {:induction false} SubEntriesLast(root: Entries, key: string, more: Entries)
    requires !Has(root, key)
    ensures SubEntries(root, key) == []
    ensures forall nested :: more == [Binding(key, Node(nested))] ==> SubEntries(root + more, key) == nested
  {
    if root == [] {
    } else {
      assert root[0].key != key;
      assert (root + more)[0] == root[0] && (root + more)[1..] == root[1..] + more;
      HasTail(root, key);
      SubEntriesLast(root[1..], key, more);
    }
  }

  predicate Rooted(leaves: seq<Located>) {
    forall i | 0 <= i < |leaves| :: leaves[i].path != []
  }

  lemma HasLast<V>(bindings: seq<Binding<V>>, last: Binding<V>)
    ensures Has(bindings + [last], last.key)
  {
    assert (bindings + [last])[|bindings|] == last;
  }

  lemma SetUnderLast(root: Entries, key: string, nested: Entries, path: Path, text: string)
    requires !Has(root, key) && path != []
    ensures SetPath(root + [Binding(key, Node(nested))], [key] + path, text)
            == root + [Binding(key, Node(SetPath(nested, path, text)))]
  {
    assert ([key] + path)[1..] == path;
    HasLast(root, Binding(key, Node(nested)));
    SubEntriesLast(root, key, [Binding(key, Node(nested))]);
    PutLast(root, key, Node(nested), Node(SetPath(nested, path, text)));
    hide Put, SubEntries, Has, Inherited, HasSetter;
  }

  lemma SetUnderNew(root: Entries, key: string, path: Path, text: string)
    requires !Has(root, key) && !Inherited(key) && path != []
    ensures SetPath(root, [key] + path, text) == root + [Binding(key, Node(SetPath([], path, text)))]
  {
    assert ([key] + path)[1..] == path;
    SubEntriesLast(root, key, []);
    PutNew(root, key, Node(SetPath([], path, text)));
    hide Put, SubEntries, Has, Inherited, HasSetter;
  }

  lemma {:induction false} SetAllUnder(root: Entries, key: string, nested: Entries, leaves: seq<Located>)
    requires !Has(root, key) && Rooted(leaves)
    ensures SetAll(root + [Binding(key, Node(nested))], Under(key, leaves))
            == root + [Binding(key, Node(SetAll(nested, leaves)))]
    decreases |leaves|
  {
    hide SetPath, Has;
    if leaves == [] {
    } else {
      SetUnderLast(root, key, nested, leaves[0].path, leaves[0].text);
      SetAllUnder(root, key, SetPath(nested, leaves[0].path, leaves[0].text), leaves[1..]);
      UnderCons(key, leaves);
    }
  }

  lemma UnderCons(key: string, leaves: seq<Located>)
    requires leaves != []
    ensures Under(key, leaves) != []
    ensures Under(key, leaves)[0] == Located([key] + leaves[0].path, leaves[0].text)
    ensures Under(key, leaves)[1..] == Under(key, leaves[1..])
  {
  }

  lemma SetAllUnderNew(root: Entries, key: string, leaves: seq<Located>)
    requires !Has(root, key) && !Inherited(key) && Rooted(leaves) && leaves != []
    ensures SetAll(root, Under(key, leaves)) == root + [Binding(key, Node(SetAll([], leaves)))]
  {
    hide SetPath, Has, Under, Inherited;
    SetUnderNew(root, key, leaves[0].path, leaves[0].text);
    SetAllUnder(root, key, SetPath([], leaves[0].path, leaves[0].text), leaves[1..]);
    UnderCons(key, leaves);
  }

  lemma {:induction false} SetAllTwice(root: Entries, a: seq<Located>, b: seq<Located>)
    ensures SetAll(root, a + b) == SetAll(SetAll(root, a), b)
    decreases |a|
  {
    hide SetPath;
    if a == [] {
      assert a + b == b;
    } else {
      assert (a + b)[0] == a[0] && (a + b)[1..] == a[1..] + b;
      SetAllTwice(SetPath(root, a[0].path, a[0].text), a[1..], b);
    }
  }

  lemma {:induction false} UnderIsRooted(key: string, leaves: seq<Located>)
    ensures Rooted(Under(key, leaves)) && |Under(key, leaves)| == |leaves|
  {
    if leaves == [] {
    } else {
      UnderIsRooted(key, leaves[1..]);
    }
  }

  lemma {:induction false} LeavesAreRooted(entries: Entries)
    ensures Rooted(Leaves(entries))
    decreases entries
  {
    if entries == [] {
    } else {
      LeavesAreRooted(entries[1..]);
      if entries[0].value.Node? {
        UnderIsRooted(entries[0].key, Leaves(entries[0].value.entries));
      }
    }
  }

  lemma {:induction false} WellShapedHasLeaves(entries: Entries)
    requires WellShaped(entries) && entries != []
    ensures Leaves(entries) != []
    decreases entries
  {
    if entries[0].value.Node? {
      WellShapedHasLeaves(entries[0].value.entries);
      UnderIsRooted(entries[0].key, Leaves(entries[0].value.entries));
    }
  }

  lemma HasAppend<V>(bindings: seq<Binding<V>>, more: seq<Binding<V>>, key: string)
    ensures Has(bindings + more, key) <==> Has(bindings, key) || Has(more, key)
  {
    var all := bindings + more;
    if i :| 0 <= i < |all| && all[i].key == key {
      if i < |bindings| {
        assert bindings[i].key == key;
      } else {
        assert more[i - |bindings|].key == key;
      }
    }
    if i :| 0 <= i < |bindings| && bindings[i].key == key {
      assert all[i].key == key;
    }
    if i :| 0 <= i < |more| && more[i].key == key {
      assert all[|bindings| + i].key == key;
    }
  }

  /** Setting one entry's leaves adds that entry. */
  lemma SetEntry(root: Entries, entry: Binding<Tree>)
    requires !Has(root, entry.key)
    requires entry.value.Leaf? ==> !HasSetter(entry.key)
    requires entry.value.Node? ==>
               && !Inherited(entry.key)
               && Leaves(entry.value.entries) != []
               && SetAll([], Leaves(entry.value.entries)) == entry.value.entries
    ensures SetAll(root, LeavesAt(entry.key, entry.value)) == root + [entry]
  {
    match entry.value {
      case Leaf(text) =>
        PutNew(root, entry.key, entry.value);
        assert [Located([entry.key], text)][1..] == [];
      case Node(nested) =>
        LeavesAreRooted(nested);
        hide Leaves, SetAll, Under, Has, Inherited;
        SetAllUnderNew(root, entry.key, Leaves(nested));
    }
  }

  lemma {:induction false} SettingLeavesRebuilds(root: Entries, entries: Entries)
    requires WellShaped(entries) && OwnKeys(entries)
    requires forall i | 0 <= i < |entries| :: !Has(root, entries[i].key)
    ensures SetAll(root, Leaves(entries)) == root + entries
    decreases entries
  {
    if entries == [] {
      NothingAdded(root);
    } else {
      var entry, rest := entries[0], entries[1..];
      if entry.value.Node? {
        var nested := entry.value.entries;
        SettingLeavesRebuilds([], nested);
        NothingAdded(nested);
        WellShapedHasLeaves(nested);
      }
      assert WellShaped(rest) && !Has(rest, entry.key);
      hide SetAll, WellShaped, LeavesAt, Inherited, HasSetter;
      SetEntry(root, entry);
      SetAllTwice(root, LeavesAt(entry.key, entry.value), Leaves(rest));
      forall i | 0 <= i < |rest|
        ensures !Has(root + [entry], rest[i].key)
      {
        assert rest[i] == entries[i + 1];
        assert entry.key != rest[i].key;
        HasAppend(root, [entry], rest[i].key);
      }
      SettingLeavesRebuilds(root + [entry], rest);
      HeadTail(entries);
      Assoc(root, [entry], rest);
    }
  }

  // Flat keys are dotted paths --------------------------------------------------------------

  function KeyOf(path: Path): string {
    Join(path, '.')
  }

  function Named(prefix: Path, leaves: seq<Located>): Flat {
    if leaves == [] then []
    else [Binding(KeyOf(prefix + leaves[0].path), leaves[0].text)] + Named(prefix, leaves[1..])
  }

  function PutAll(out: Flat, flat: Flat): Flat
    decreases |flat|
  {
    if flat == [] then out else PutAll(Put(out, flat[0].key, flat[0].value), flat[1..])
  }

  lemma {:induction false} NamedAppend(prefix: Path, a: seq<Located>, b: seq<Located>)
    ensures Named(prefix, a + b) == Named(prefix, a) + Named(prefix, b)
    decreases |a|
  {
    if a == [] {
      assert a + b == b;
    } else {
      assert (a + b)[0] == a[0] && (a + b)[1..] == a[1..] + b;
      NamedAppend(prefix, a[1..], b);
    }
  }

  lemma {:induction false} NamedUnder(prefix: Path, key: string, leaves: seq<Located>)
    ensures Named(prefix, Under(key, leaves)) == Named(prefix + [key], leaves)
    decreases |leaves|
  {
    if leaves == [] {
    } else {
      UnderCons(key, leaves);
      Assoc(prefix, [key], leaves[0].path);
      NamedUnder(prefix, key, leaves[1..]);
    }
  }

  lemma {:induction false} PutAllTwice(out: Flat, a: Flat, b: Flat)
    ensures PutAll(out, a + b) == PutAll(PutAll(out, a), b)
    decreases |a|
  {
    if a == [] {
      assert a + b == b;
    } else {
      assert (a + b)[0] == a[0] && (a + b)[1..] == a[1..] + b;
      PutAllTwice(Put(out, a[0].key, a[0].value), a[1..], b);
    }
  }

  /** The prefix string stands for `prefix`: it is empty only at the top, where no sub-object has the empty key. */
  predicate Nameable(prefix: Path, leaves: seq<Located>) {
    && (prefix == [] || KeyOf(prefix) != "")
    && (prefix == [] ==> forall i | 0 <= i < |leaves| && |leaves[i].path| > 1 :: leaves[i].path[0] != "")
  }

  lemma FullKeyIsKeyOf(prefix: Path, key: string)
    requires prefix == [] || KeyOf(prefix) != ""
    ensures FullKey(KeyOf(prefix), key) == KeyOf(prefix + [key])
    ensures prefix != [] || key != "" ==> KeyOf(prefix + [key]) != ""
  {
    if prefix == [] {
      assert prefix + [key] == [key];
    } else {
      JoinAppend(prefix, [key], '.');
      assert Join([key], '.') == key;
    }
  }

  lemma {:induction false} HollowFlattens(entries: Entries, prefix: string, out: Flat)
    requires Leaves(entries) == []
    ensures FlattenInto(entries, prefix, out) == out
    decreases entries
  {
    if entries == [] {
    } else {
      if entries[0].value.Node? {
        var nested := entries[0].value.entries;
        UnderIsRooted(entries[0].key, Leaves(nested));
        HollowFlattens(nested, FullKey(prefix, entries[0].key), out);
      }
      HollowFlattens(entries[1..], prefix, out);
    }
  }

  lemma NameableParts(prefix: Path, a: seq<Located>, b: seq<Located>)
    requires Nameable(prefix, a + b)
    ensures Nameable(prefix, a) && Nameable(prefix, b)
  {
    assert forall i | 0 <= i < |a| :: a[i] == (a + b)[i];
    assert forall i | 0 <= i < |b| :: b[i] == (a + b)[|a| + i];
    hide KeyOf;
  }

  lemma NameableBelow(prefix: Path, key: string, leaves: seq<Located>)
    requires Nameable(prefix, Under(key, leaves)) && Rooted(leaves) && leaves != []
    ensures Nameable(prefix + [key], leaves)
  {
    UnderCons(key, leaves);
    assert |Under(key, leaves)[0].path| > 1;
    FullKeyIsKeyOf(prefix, key);
    hide KeyOf, Under;
  }

  /** Flattening writes the leaves under their dotted keys, in order. */
  lemma {:induction false} FlattenWritesLeaves(entries: Entries, prefix: Path, out: Flat)
    requires Nameable(prefix, Leaves(entries))
    ensures FlattenInto(entries, KeyOf(prefix), out) == PutAll(out, Named(prefix, Leaves(entries)))
    decreases entries
  {
    if entries == [] {
    } else {
      var entry, rest := entries[0], entries[1..];
      NameableParts(prefix, LeavesAt(entry.key, entry.value), Leaves(rest));
      FullKeyIsKeyOf(prefix, entry.key);
      var next := PutAll(out, Named(prefix, LeavesAt(entry.key, entry.value)));
      match entry.value {
        case Leaf(text) =>
          LeafNamed(prefix, entry.key, text, out);
        case Node(nested) =>
          if Leaves(nested) == [] {
            HollowFlattens(nested, FullKey(KeyOf(prefix), entry.key), out);
          } else {
            LeavesAreRooted(nested);
            NameableBelow(prefix, entry.key, Leaves(nested));
            FlattenWritesLeaves(nested, prefix + [entry.key], out);
            NamedUnder(prefix, entry.key, Leaves(nested));
          }
      }
      hide KeyOf, Named, PutAll, Nameable, Put;
      FlattenWritesLeaves(rest, prefix, next);
      NamedAppend(prefix, LeavesAt(entry.key, entry.value), Leaves(rest));
      PutAllTwice(out, Named(prefix, LeavesAt(entry.key, entry.value)), Named(prefix, Leaves(rest)));
    }
  }

  lemma LeafNamed(prefix: Path, key: string, text: string, out: Flat)
    ensures PutAll(out, Named(prefix, [Located([key], text)])) == Put(out, KeyOf(prefix + [key]), text)
  {
    assert [Located([key], text)][1..] == [];
    assert Named(prefix, [Located([key], text)]) == [Binding(KeyOf(prefix + [key]), text)];
    assert [Binding(KeyOf(prefix + [key]), text)][1..] == [];
  }

  // Rebuilding inverts flattening --------------------------------------------------------------

  /** Non-empty keys without dots, at every level. */
  predicate PlainKeys(entries: Entries)
    decreases entries
  {
    entries == [] ||
    (&& entries[0].key != "" && '.' !in entries[0].key
     && (entries[0].value.Node? ==> PlainKeys(entries[0].value.entries))
     && PlainKeys(entries[1..]))
  }

  predicate PlainPath(path: Path) {
    path != [] && forall i | 0 <= i < |path| :: '.' !in path[i] && path[i] != ""
  }

  predicate DotFree(path: Path) {
    path != [] && forall i | 0 <= i < |path| :: '.' !in path[i]
  }

  lemma {:induction false} UnderIsPlain(key: string, leaves: seq<Located>)
    requires key != "" && '.' !in key
    requires forall i | 0 <= i < |leaves| :: PlainPath(leaves[i].path)
    ensures forall i | 0 <= i < |Under(key, leaves)| :: PlainPath(Under(key, leaves)[i].path)
  {
    if leaves == [] {
    } else {
      UnderIsPlain(key, leaves[1..]);
      UnderCons(key, leaves);
      assert PlainPath([key] + leaves[0].path);
    }
  }

  lemma {:induction false} LeavesArePlain(entries: Entries)
    requires PlainKeys(entries)
    ensures forall i | 0 <= i < |Leaves(entries)| :: PlainPath(Leaves(entries)[i].path)
    decreases entries
  {
    if entries == [] {
    } else {
      LeavesArePlain(entries[1..]);
      match entries[0].value {
        case Leaf(_) => assert PlainPath([entries[0].key]);
        case Node(nested) =>
          LeavesArePlain(nested);
          UnderIsPlain(entries[0].key, Leaves(nested));
      }
    }
  }

  /** One path is a prefix of the other. */
  predicate Clash(a: Path, b: Path) {
    a <= b || b <= a
  }

  lemma ClashBelow(key: string, a: Path, b: Path)
    ensures Clash([key] + a, [key] + b) <==> Clash(a, b)
  {
    assert ([key] + a)[1..] == a && ([key] + b)[1..] == b;
    if a <= b {
      assert [key] + a <= [key] + b;
    }
    if b <= a {
      assert [key] + b <= [key] + a;
    }
    if [key] + a <= [key] + b {
      assert forall i | 0 <= i < |a| :: a[i] == ([key] + a)[i + 1] == ([key] + b)[i + 1] == b[i];
    }
    if [key] + b <= [key] + a {
      assert forall i | 0 <= i < |b| :: b[i] == ([key] + b)[i + 1] == ([key] + a)[i + 1] == a[i];
    }
  }

  /** No leaf lies on the way to another, or at the same place. */
  predicate ClashFree(leaves: seq<Located>) {
    forall i, j | 0 <= i < j < |leaves| :: !Clash(leaves[i].path, leaves[j].path)
  }

  lemma {:induction false} UnderAt(key: string, leaves: seq<Located>, i: nat)
    requires i < |leaves|
    ensures |Under(key, leaves)| == |leaves|
    ensures Under(key, leaves)[i] == Located([key] + leaves[i].path, leaves[i].text)
  {
    UnderCons(key, leaves);
    if i > 0 {
      UnderAt(key, leaves[1..], i - 1);
    } else {
      UnderIsRooted(key, leaves);
    }
  }

  lemma UnderIsClashFree(key: string, leaves: seq<Located>)
    requires ClashFree(leaves)
    ensures ClashFree(Under(key, leaves))
  {
    hide Clash, Under;
    UnderIsRooted(key, leaves);
    forall i, j | 0 <= i < j < |leaves|
      ensures !Clash(Under(key, leaves)[i].path, Under(key, leaves)[j].path)
    {
      UnderAt(key, leaves, i);
      UnderAt(key, leaves, j);
      ClashBelow(key, leaves[i].path, leaves[j].path);
    }
  }

  lemma LeavesAtStart(key: string, tree: Tree)
    ensures forall i | 0 <= i < |LeavesAt(key, tree)| ::
              LeavesAt(key, tree)[i].path != [] && LeavesAt(key, tree)[i].path[0] == key
  {
    match tree {
      case Leaf(_) =>
      case Node(nested) =>
        UnderIsRooted(key, Leaves(nested));
        forall i | 0 <= i < |Leaves(nested)| {
          UnderAt(key, Leaves(nested), i);
        }
    }
  }

  lemma {:induction false} LeavesHaveKeys(entries: Entries)
    ensures forall i | 0 <= i < |Leaves(entries)| ::
              Leaves(entries)[i].path != [] && Has(entries, Leaves(entries)[i].path[0])
    decreases entries
  {
    if entries == [] {
    } else {
      LeavesHaveKeys(entries[1..]);
      LeavesAtStart(entries[0].key, entries[0].value);
      hide LeavesAt;
      HeadTail(entries);
      forall key {
        HasAppend([entries[0]], entries[1..], key);
      }
      assert [entries[0]][0].key == entries[0].key;
    }
  }

  lemma {:induction false} LeavesAreClashFree(entries: Entries)
    requires WellShaped(entries)
    ensures ClashFree(Leaves(entries))
    decreases entries
  {
    if entries == [] {
    } else {
      var entry, rest := entries[0], entries[1..];
      LeavesAreClashFree(rest);
      LeavesHaveKeys(rest);
      LeavesAtStart(entry.key, entry.value);
      if entry.value.Node? {
        LeavesAreClashFree(entry.value.entries);
        UnderIsClashFree(entry.key, Leaves(entry.value.entries));
      }
      assert ClashFree(LeavesAt(entry.key, entry.value));
      assert !Has(rest, entry.key);
      hide LeavesAt, Has, WellShaped;
    }
  }

  lemma {:induction false} NamedAt(prefix: Path, leaves: seq<Located>, i: nat)
    requires i < |leaves|
    ensures |Named(prefix, leaves)| == |leaves|
    ensures Named(prefix, leaves)[i] == Binding(KeyOf(prefix + leaves[i].path), leaves[i].text)
  {
    if i > 0 {
      NamedAt(prefix, leaves[1..], i - 1);
    } else if |leaves| > 1 {
      NamedAt(prefix, leaves[1..], 0);
    }
  }

  predicate DistinctKeys(flat: Flat) {
    forall i, j | 0 <= i < j < |flat| :: flat[i].key != flat[j].key
  }

  /** No key is, part by part, the beginning of another. */
  predicate PrefixFree(flat: Flat) {
    forall i, j | 0 <= i < j < |flat| :: !Clash(Split(flat[i].key, '.'), Split(flat[j].key, '.'))
  }

  lemma NameSplits(leaves: seq<Located>, i: nat)
    requires i < |leaves| && DotFree(leaves[i].path)
    ensures |Named([], leaves)| == |leaves| && Split(Named([], leaves)[i].key, '.') == leaves[i].path
  {
    NamedAt([], leaves, i);
    NothingAdded(leaves[i].path);
    SplitOfJoin(leaves[i].path, '.');
  }

  lemma NamesAreDistinct(leaves: seq<Located>)
    requires ClashFree(leaves) && forall i | 0 <= i < |leaves| :: DotFree(leaves[i].path)
    ensures PrefixFree(Named([], leaves)) && DistinctKeys(Named([], leaves))
  {
    hide Named, DotFree, Split;
    NamedLength(leaves);
    var names := Named([], leaves);
    forall i, j | 0 <= i < j < |names|
      ensures !Clash(Split(names[i].key, '.'), Split(names[j].key, '.'))
    {
      NameSplits(leaves, i);
      NameSplits(leaves, j);
    }
  }

  lemma {:induction false} PutAllNew(out: Flat, flat: Flat)
    requires DistinctKeys(flat) && forall i | 0 <= i < |flat| :: !Has(out, flat[i].key)
    ensures PutAll(out, flat) == out + flat
    decreases |flat|
  {
    if flat == [] {
      NothingAdded(out);
    } else {
      PutNew(out, flat[0].key, flat[0].value);
      forall i | 0 <= i < |flat[1..]|
        ensures !Has(out + [flat[0]], flat[1..][i].key)
      {
        HasAppend(out, [flat[0]], flat[1..][i].key);
        assert flat[1..][i] == flat[i + 1];
      }
      PutAllNew(out + [flat[0]], flat[1..]);
      HeadTail(flat);
      Assoc(out, [flat[0]], flat[1..]);
    }
  }

  lemma {:induction false} RebuildSetsLeaves(root: Entries, leaves: seq<Located>)
    requires forall i | 0 <= i < |leaves| :: DotFree(leaves[i].path)
    ensures RebuildOnto(root, Named([], leaves)) == SetAll(root, leaves)
    decreases |leaves|
  {
    if leaves == [] {
    } else {
      NothingAdded(leaves[0].path);
      SplitOfJoin(leaves[0].path, '.');
      assert Named([], leaves)[1..] == Named([], leaves[1..]);
      hide KeyOf, SetPath, Join, Split;
      RebuildSetsLeaves(SetPath(root, leaves[0].path, leaves[0].text), leaves[1..]);
    }
  }

  /** The flat form of a tree with plain keys and no empty sub-objects is its leaves, named. */
  lemma FlattenNamesLeaves(entries: Entries)
    requires WellShaped(entries) && PlainKeys(entries)
    ensures Flatten(entries) == Named([], Leaves(entries))
    ensures PrefixFree(Flatten(entries)) && DistinctKeys(Flatten(entries))
  {
    var leaves := Leaves(entries);
    PlainIsNameable(entries);
    LeavesAreClashFree(entries);
    hide *;
    FlattenOf(entries);
    FlattenWritesLeaves(entries, [], []);
    NamesAreDistinct(leaves);
    PutAllNothing(Named([], leaves));
  }

  /** Such a tree is its own flat form, rebuilt, when its keys are its own: order included. */
  lemma OwnKeysComeBack(entries: Entries)
    requires WellShaped(entries) && PlainKeys(entries) && OwnKeys(entries)
    ensures Rebuild(Flatten(entries)) == entries
  {
    var leaves := Leaves(entries);
    PlainIsNameable(entries);
    hide *;
    FlattenNamesLeaves(entries);
    RebuildSetsLeaves([], leaves);
    NothingHas(entries);
    SettingLeavesRebuilds([], entries);
    NothingAdded(entries);
    RebuildOf(Named([], leaves));
  }

  lemma PlainIsNameable(entries: Entries)
    requires PlainKeys(entries)
    ensures Nameable([], Leaves(entries))
    ensures forall i | 0 <= i < |Leaves(entries)| :: DotFree(Leaves(entries)[i].path)
  {
    LeavesArePlain(entries);
    forall i | 0 <= i < |Leaves(entries)|
      ensures DotFree(Leaves(entries)[i].path) && Leaves(entries)[i].path[0] != ""
    {
      assert PlainPath(Leaves(entries)[i].path);
    }
    hide Leaves, PlainKeys;
  }

  lemma FlattenOf(entries: Entries)
    ensures Flatten(entries) == FlattenInto(entries, KeyOf([]), [])
  {
  }

  lemma RebuildOf(flat: Flat)
    ensures Rebuild(flat) == RebuildOnto([], flat)
  {
  }

  lemma PutAllNothing(flat: Flat)
    requires DistinctKeys(flat)
    ensures PutAll([], flat) == flat
  {
    PutAllNew([], flat);
    NothingAdded(flat);
  }

  lemma NothingHas(entries: Entries)
    ensures forall i | 0 <= i < |entries| :: !Has<Tree>([], entries[i].key)
  {
  }

  // Flattening inverts rebuilding, in any order -----------------------------------------------

  function Count(leaves: seq<Located>, x: Located): nat {
    if leaves == [] then 0 else (if leaves[0] == x then 1 else 0) + Count(leaves[1..], x)
  }

  lemma {:induction false} CountSum(a: seq<Located>, b: seq<Located>, x: Located)
    ensures Count(a + b, x) == Count(a, x) + Count(b, x)
  {
    if a == [] {
      assert a + b == b;
    } else {
      assert (a + b)[0] == a[0] && (a + b)[1..] == a[1..] + b;
      CountSum(a[1..], b, x);
    }
  }

  lemma {:induction false} CountIsMembership(leaves: seq<Located>, x: Located)
    ensures Count(leaves, x) > 0 <==> x in leaves
  {
    if leaves == [] {
    } else {
      CountIsMembership(leaves[1..], x);
    }
  }

  /** Below `key` the leaves of a sub-object are those whose path starts with `key`. */
  lemma {:induction false} CountUnder(key: string, leaves: seq<Located>, x: Located)
    ensures Count(Under(key, leaves), x)
            == if x.path != [] && x.path[0] == key then Count(leaves, Located(x.path[1..], x.text)) else 0
  {
    if leaves == [] {
    } else {
      CountUnder(key, leaves[1..], x);
      UnderCons(key, leaves);
      assert ([key] + leaves[0].path)[1..] == leaves[0].path;
      if x.path != [] && x.path[0] == key {
        assert x.path == [key] + x.path[1..];
      }
      hide Under;
    }
  }

  /** The leaves of the property that assigning to `key` replaces. */
  function Replaced(root: Entries, key: string): seq<Located> {
    if root == [] then []
    else if root[0].key == key then LeavesAt(key, root[0].value)
    else Replaced(root[1..], key)
  }

  lemma {:induction false} CountPut(root: Entries, key: string, value: Tree, x: Located)
    ensures Count(Leaves(Put(root, key, value)), x) + Count(Replaced(root, key), x)
            == Count(Leaves(root), x) + Count(LeavesAt(key, value), x)
  {
    hide LeavesAt, Count;
    if root == [] {
      NothingAdded(LeavesAt(key, value));
      assert [Binding(key, value)][1..] == [];
      assert Leaves([Binding(key, value)]) == LeavesAt(key, value);
      CountNothing(x);
    } else if root[0].key == key {
      var put := [Binding(key, value)] + root[1..];
      assert put[0] == Binding(key, value) && put[1..] == root[1..];
      CountSum(LeavesAt(key, value), Leaves(root[1..]), x);
      CountSum(LeavesAt(key, root[0].value), Leaves(root[1..]), x);
    } else {
      var put := [root[0]] + Put(root[1..], key, value);
      assert put[0] == root[0] && put[1..] == Put(root[1..], key, value);
      CountPut(root[1..], key, value, x);
      CountSum(LeavesAt(root[0].key, root[0].value), Leaves(root[1..]), x);
      CountSum(LeavesAt(root[0].key, root[0].value), Leaves(put[1..]), x);
    }
  }

  lemma CountNothing(x: Located)
    ensures Count([], x) == 0
  {
  }

  lemma {:induction false} ReplacedAreLeaves(root: Entries, key: string)
    ensures forall x | x in Replaced(root, key) :: x in Leaves(root)
  {
    hide LeavesAt;
    if root != [] && root[0].key != key {
      ReplacedAreLeaves(root[1..], key);
    }
  }

  ghost predicate Fits(root: Entries, path: Path) {
    forall x | x in Leaves(root) :: !Clash(x.path, path)
  }

  lemma ReplacedAtEnd(root: Entries, path: Path)
    requires |path| == 1 && Fits(root, path)
    ensures Replaced(root, path[0]) == []
  {
    ReplacedAreLeaves(root, path[0]);
    var gone := Replaced(root, path[0]);
    ReplacedStart(root, path[0]);
    forall x | x in gone
      ensures Clash(x.path, path)
    {
    }
    hide Replaced, Leaves;
  }

  lemma {:induction false} ReplacedStart(root: Entries, key: string)
    ensures forall i | 0 <= i < |Replaced(root, key)| ::
              Replaced(root, key)[i].path != [] && Replaced(root, key)[i].path[0] == key
  {
    if root == [] {
    } else {
      if root[0].key == key {
        LeavesAtStart(key, root[0].value);
      } else {
        ReplacedStart(root[1..], key);
      }
    }
    hide LeavesAt;
  }

  /** Above the end of the path the replaced property is the sub-object that is kept, or there is none. */
  lemma {:induction false} ReplacedInside(root: Entries, key: string, path: Path)
    requires |path| > 1 && path[0] == key
    requires forall x | x in Leaves(root) :: !Clash(x.path, path)
    ensures Replaced(root, key) == Under(key, Leaves(SubEntries(root, key)))
  {
    if root == [] {
    } else {
      if root[0].key == key {
        if root[0].value.Leaf? {
          assert Located([key], root[0].value.text) in Leaves(root);
          assert [key] <= path;
        }
      } else {
        assert forall x | x in Leaves(root[1..]) :: x in Leaves(root);
        ReplacedInside(root[1..], key, path);
      }
    }
  }

  lemma FitsBelow(root: Entries, path: Path)
    requires |path| > 1 && Fits(root, path)
    ensures Fits(SubEntries(root, path[0]), path[1..])
  {
    var key := path[0];
    var nested := SubEntries(root, key);
    ReplacedInside(root, key, path);
    ReplacedAreLeaves(root, key);
    forall x | x in Leaves(nested)
      ensures !Clash(x.path, path[1..])
    {
      var below := Located([key] + x.path, x.text);
      CountUnder(key, Leaves(nested), below);
      assert below.path[1..] == x.path;
      CountIsMembership(Leaves(nested), x);
      CountIsMembership(Under(key, Leaves(nested)), below);
      assert !Clash(below.path, path);
      assert path == [key] + path[1..];
      ClashBelow(key, x.path, path[1..]);
    }
    hide Replaced, Leaves, SubEntries, Under, Count;
  }

  /** No part of the path runs into something inherited. */
  predicate Settable(path: Path) {
    path == [] ||
    if |path| == 1 then !HasSetter(path[0]) else !Inherited(path[0]) && Settable(path[1..])
  }

  /** Where no sub-object has an inherited name, the object itself has nothing there that does not clash. */
  lemma {:induction false} InheritedIsAbsent(root: Entries, path: Path)
    requires OwnKeys(root) && path != [] && Inherited(path[0])
    requires forall x | x in Leaves(root) :: !Clash(x.path, path)
    ensures !Has(root, path[0])
  {
    hide Inherited, Has, Clash;
    if root == [] {
      NothingThere<Tree>(path[0]);
    } else {
      HasTail(root, path[0]);
      TextInTheWay(root, path);
      assert forall x | x in Leaves(root[1..]) :: x in Leaves(root);
      InheritedIsAbsent(root[1..], path);
    }
  }

  lemma NothingThere<V>(key: string)
    ensures !Has<V>([], key)
  {
  }

  lemma TextInTheWay(root: Entries, path: Path)
    requires root != [] && path != []
    ensures root[0].key == path[0] && root[0].value.Leaf? ==> exists x :: x in Leaves(root) && Clash(x.path, path)
  {
    if root[0].key == path[0] && root[0].value.Leaf? {
      var x := Located([path[0]], root[0].value.text);
      assert x in Leaves(root) && x.path <= path;
    }
  }

  lemma SetIsLost(root: Entries, path: Path, text: string)
    requires OwnKeys(root) && Fits(root, path) && path != []
    requires if |path| == 1 then HasSetter(path[0]) else Inherited(path[0])
    ensures SetPath(root, path, text) == root && !Settable(path)
  {
    SetterIsInherited(path[0]);
    InheritedIsAbsent(root, path);
    hide Inherited, HasSetter, Has, Put, OwnKeys;
  }

  lemma SetterIsInherited(key: string)
    ensures HasSetter(key) ==> Inherited(key)
  {
  }

  lemma {:induction false} PutOwn(root: Entries, key: string, value: Tree)
    requires OwnKeys(root)
    requires if value.Leaf? then !HasSetter(key) else !Inherited(key) && OwnKeys(value.entries)
    ensures OwnKeys(Put(root, key, value))
  {
    hide Inherited, HasSetter;
    if root == [] {
      assert [Binding(key, value)][1..] == [];
    } else if root[0].key == key {
      assert ([Binding(key, value)] + root[1..])[1..] == root[1..];
    } else {
      PutOwn(root[1..], key, value);
      var put := [root[0]] + Put(root[1..], key, value);
      assert put[0] == root[0] && put[1..] == Put(root[1..], key, value);
    }
  }

  lemma {:induction false} SubEntriesOwn(root: Entries, key: string)
    requires OwnKeys(root)
    ensures OwnKeys(SubEntries(root, key))
  {
    hide Inherited, HasSetter;
    if root == [] {
    } else {
      SubEntriesOwn(root[1..], key);
    }
  }

  lemma {:induction false} SetKeepsOwn(root: Entries, path: Path, text: string)
    requires OwnKeys(root) && path != [] && Fits(root, path)
    ensures OwnKeys(SetPath(root, path, text))
    decreases |path|
  {
    hide Inherited, HasSetter, Has, Put, SubEntries, OwnKeys, Fits, Settable;
    var key := path[0];
    if if |path| == 1 then HasSetter(key) else Inherited(key) {
      SetIsLost(root, path, text);
    } else if |path| == 1 {
      PutOwn(root, key, Leaf(text));
    } else {
      SubEntriesOwn(root, key);
      FitsBelow(root, path);
      SetKeepsOwn(SubEntries(root, key), path[1..], text);
      PutOwn(root, key, Node(SetPath(SubEntries(root, key), path[1..], text)));
    }
  }

  /** Setting a path that clashes with no leaf adds exactly that leaf, or nothing when the path is not settable. */
  lemma {:induction false} SetAddsLeaf(root: Entries, path: Path, text: string, x: Located)
    requires OwnKeys(root) && path != [] && Fits(root, path)
    ensures Count(Leaves(SetPath(root, path, text)), x)
            == Count(Leaves(root), x) + (if Settable(path) && x == Located(path, text) then 1 else 0)
    decreases |path|
  {
    hide Leaves, Put, Replaced, Under, Count, Fits, OwnKeys, Inherited, HasSetter, Has, SubEntries;
    var key := path[0];
    if if |path| == 1 then HasSetter(key) else Inherited(key) {
      SetIsLost(root, path, text);
    } else if |path| == 1 {
      CountPut(root, key, Leaf(text), x);
      ReplacedAtEnd(root, path);
      CountNothing(x);
      assert path == [key];
      CountOne(Located(path, text), x);
    } else {
      var nested := SubEntries(root, key);
      var below := SetPath(nested, path[1..], text);
      CountPut(root, key, Node(below), x);
      SubEntriesOwn(root, key);
      FitsInside(root, path);
      FitsBelow(root, path);
      CountUnder(key, Leaves(nested), x);
      CountUnder(key, Leaves(below), x);
      if x.path != [] && x.path[0] == key {
        SetAddsLeaf(nested, path[1..], text, Located(x.path[1..], x.text));
        SamePathBelow(key, x.path, path);
      }
    }
  }

  lemma CountOne(one: Located, x: Located)
    ensures Count([one], x) == if x == one then 1 else 0
  {
    assert [one][1..] == [];
  }

  lemma FitsInside(root: Entries, path: Path)
    requires |path| > 1 && Fits(root, path)
    ensures Replaced(root, path[0]) == Under(path[0], Leaves(SubEntries(root, path[0])))
  {
    ReplacedInside(root, path[0], path);
  }

  lemma SamePathBelow(key: string, a: Path, b: Path)
    requires a != [] && b != [] && a[0] == key == b[0]
    ensures a == b <==> a[1..] == b[1..]
  {
    HeadTail(a);
    HeadTail(b);
  }

  function LocatedOf(flat: Flat): seq<Located> {
    if flat == [] then [] else [Located(Split(flat[0].key, '.'), flat[0].value)] + LocatedOf(flat[1..])
  }

  /** The bindings whose keys are settable. */
  function Kept(flat: Flat): Flat {
    if flat == [] then []
    else if Settable(Split(flat[0].key, '.')) then [flat[0]] + Kept(flat[1..])
    else Kept(flat[1..])
  }

  /** Rebuilding adds the leaves of the settable keys, whatever the order, and nothing else. */
  lemma {:induction false} RebuildAddsLeaves(root: Entries, flat: Flat, x: Located)
    requires PrefixFree(flat) && OwnKeys(root)
    requires forall i | 0 <= i < |flat| :: Fits(root, Split(flat[i].key, '.'))
    ensures Count(Leaves(RebuildOnto(root, flat)), x) == Count(Leaves(root), x) + Count(LocatedOf(Kept(flat)), x)
    ensures OwnKeys(RebuildOnto(root, flat))
    decreases |flat|
  {
    hide Split, Leaves, SetPath, Fits, Clash, OwnKeys, Settable, Count;
    if flat == [] {
      CountNothing(x);
    } else {
      var path := Split(flat[0].key, '.');
      var next := SetPath(root, path, flat[0].value);
      SetAddsLeaf(root, path, flat[0].value, x);
      SetKeepsOwn(root, path, flat[0].value);
      forall i | 0 <= i < |flat[1..]|
        ensures Fits(next, Split(flat[1..][i].key, '.'))
      {
        assert flat[1..][i] == flat[i + 1];
        StillFits(root, path, flat[0].value, Split(flat[i + 1].key, '.'));
      }
      RebuildAddsLeaves(next, flat[1..], x);
      CountKept(flat, x);
    }
  }

  lemma CountKept(flat: Flat, x: Located)
    requires flat != []
    ensures Count(LocatedOf(Kept(flat)), x)
            == Count(LocatedOf(Kept(flat[1..])), x)
               + (if Settable(Split(flat[0].key, '.')) && x == Located(Split(flat[0].key, '.'), flat[0].value) then 1 else 0)
  {
    hide Split, Settable;
    if Settable(Split(flat[0].key, '.')) {
      var kept := [flat[0]] + Kept(flat[1..]);
      assert kept[0] == flat[0] && kept[1..] == Kept(flat[1..]);
      CountSum([Located(Split(flat[0].key, '.'), flat[0].value)], LocatedOf(Kept(flat[1..])), x);
      CountOne(Located(Split(flat[0].key, '.'), flat[0].value), x);
    }
  }

  lemma StillFits(root: Entries, path: Path, text: string, other: Path)
    requires OwnKeys(root) && path != [] && Fits(root, path) && Fits(root, other) && !Clash(path, other)
    ensures Fits(SetPath(root, path, text), other)
  {
    forall x | x in Leaves(SetPath(root, path, text))
      ensures !Clash(x.path, other)
    {
      SetAddsLeaf(root, path, text, x);
      CountIsMembership(Leaves(SetPath(root, path, text)), x);
      CountIsMembership(Leaves(root), x);
    }
    hide Leaves, SetPath, Count, Clash, OwnKeys;
  }

  /** Bindings that agree wherever they have a key in common. */
  ghost predicate Agree(a: Flat, b: Flat) {
    forall x, y | x in a && y in b && x.key == y.key :: x == y
  }

  lemma {:induction false} PutContents(out: Flat, key: string, text: string)
    requires Agree(out, [Binding(key, text)])
    ensures forall b :: b in Put(out, key, text) <==> b in out || b == Binding(key, text)
    ensures DistinctKeys(out) ==> DistinctKeys(Put(out, key, text))
  {
    if out == [] {
    } else {
      assert Agree(out[1..], [Binding(key, text)]);
      assert Binding(key, text) in [Binding(key, text)];
      HeadTail(out);
      if out[0].key == key {
        assert out[0] in out;
        assert Put(out, key, text) == out;
      } else {
        PutContents(out[1..], key, text);
        var put := Put(out[1..], key, text);
        if DistinctKeys(out) {
          assert DistinctKeys(out[1..]);
          forall j | 0 <= j < |put|
            ensures put[j].key != out[0].key
          {
            assert put[j] in put;
            if put[j] in out[1..] {
              var i :| 0 <= i < |out[1..]| && out[1..][i] == put[j];
              assert out[i + 1] == put[j];
            }
          }
        }
      }
    }
  }

  lemma {:induction false} PutAllContents(out: Flat, flat: Flat)
    requires Agree(out, flat) && Agree(flat, flat) && DistinctKeys(out)
    ensures forall b :: b in PutAll(out, flat) <==> b in out || b in flat
    ensures DistinctKeys(PutAll(out, flat))
    decreases |flat|
  {
    hide Put;
    if flat == [] {
    } else {
      var first, rest := flat[0], flat[1..];
      HeadTail(flat);
      assert first in flat && forall b | b in rest :: b in flat;
      assert Agree(out, [first]);
      PutContents(out, first.key, first.value);
      assert Binding(first.key, first.value) == first;
      assert Agree(Put(out, first.key, first.value), rest);
      PutAllContents(Put(out, first.key, first.value), rest);
    }
  }

  predicate LeadingDot(key: string) {
    key != "" && key[0] == '.'
  }

  lemma SplitLeadingDot(key: string)
    ensures LeadingDot(key) <==> |Split(key, '.')| > 1 && Split(key, '.')[0] == ""
  {
    JoinOfSplit(key, '.');
    SplitPartsLackSep(key, '.');
    var parts := Split(key, '.');
    if parts[0] != "" {
      assert key[0] == parts[0][0];
      assert parts[0][0] in parts[0];
    } else if |parts| > 1 {
      assert key == "" + "." + Join(parts[1..], '.');
    } else {
      assert key == "";
    }
    hide Split;
  }

  /** The binding at `i` is the leaf `x`, with its key split at the dots. */
  predicate LiesAt(flat: Flat, i: int, x: Located) {
    0 <= i < |flat| && x == Located(Split(flat[i].key, '.'), flat[i].value)
  }

  lemma {:induction false} KeptMember(flat: Flat, x: Located)
    ensures x in LocatedOf(Kept(flat)) <==> exists i :: LiesAt(flat, i, x) && Settable(x.path)
  {
    hide Split, Settable;
    if flat == [] {
      assert LocatedOf(Kept(flat)) == [];
    } else {
      var rest := flat[1..];
      KeptMember(rest, x);
      CountKept(flat, x);
      CountIsMembership(LocatedOf(Kept(flat)), x);
      CountIsMembership(LocatedOf(Kept(rest)), x);
      if i :| LiesAt(rest, i, x) && Settable(x.path) {
        assert LiesAt(flat, i + 1, x);
      }
      if i :| LiesAt(flat, i, x) && Settable(x.path) {
        assert i == 0 || LiesAt(rest, i - 1, x);
      }
      if Settable(Split(flat[0].key, '.')) && x == Located(Split(flat[0].key, '.'), flat[0].value) {
        assert LiesAt(flat, 0, x);
      }
    }
  }

  lemma RebuiltLeaves(flat: Flat, x: Located)
    requires PrefixFree(flat)
    ensures x in Leaves(Rebuild(flat)) <==> exists i :: LiesAt(flat, i, x) && Settable(x.path)
    ensures OwnKeys(Rebuild(flat))
  {
    assert Leaves([]) == [];
    assert forall i | 0 <= i < |flat| :: Fits([], Split(flat[i].key, '.'));
    assert OwnKeys([]);
    hide *;
    RebuildOf(flat);
    RebuildAddsLeaves([], flat, x);
    NoLeaves(x);
    CountIsMembership(Leaves(Rebuild(flat)), x);
    CountIsMembership(LocatedOf(Kept(flat)), x);
    KeptMember(flat, x);
  }

  lemma NoLeaves(x: Located)
    ensures Count(Leaves([]), x) == 0
  {
  }

  lemma {:induction false} NamedMember(leaves: seq<Located>, b: Binding<string>)
    ensures b in Named([], leaves)
            <==> exists i :: 0 <= i < |leaves| && b == Binding(KeyOf([] + leaves[i].path), leaves[i].text)
  {
    if b in Named([], leaves) {
      NamedLength(leaves);
      var i :| 0 <= i < |Named([], leaves)| && Named([], leaves)[i] == b;
      NamedAt([], leaves, i);
    }
    if i :| 0 <= i < |leaves| && b == Binding(KeyOf([] + leaves[i].path), leaves[i].text) {
      NamedAt([], leaves, i);
    }
    hide Named, KeyOf;
  }

  lemma {:induction false} NamedLength(leaves: seq<Located>)
    ensures |Named([], leaves)| == |leaves|
  {
    if leaves != [] {
      NamedAt([], leaves, 0);
    }
  }

  /** The leaves of a rebuilt tree, under their dotted names, are the settable bindings it was rebuilt from. */
  lemma RebuiltNames(flat: Flat, b: Binding<string>)
    requires PrefixFree(flat)
    ensures b in Named([], Leaves(Rebuild(flat))) <==> b in flat && Settable(Split(b.key, '.'))
  {
    hide *;
    var leaves := Leaves(Rebuild(flat));
    NamedMember(leaves, b);
    if i :| 0 <= i < |leaves| && b == Binding(KeyOf([] + leaves[i].path), leaves[i].text) {
      RebuiltLeaves(flat, leaves[i]);
      var j :| LiesAt(flat, j, leaves[i]) && Settable(leaves[i].path);
      NothingAdded(leaves[i].path);
      LiesAtNamed(flat, j, leaves[i]);
      assert b == flat[j];
    }
    if b in flat && Settable(Split(b.key, '.')) {
      var j :| 0 <= j < |flat| && flat[j] == b;
      var x := Located(Split(b.key, '.'), b.value);
      LiesAtIts(flat, j);
      RebuiltLeaves(flat, x);
      var i :| 0 <= i < |leaves| && leaves[i] == x;
      NothingAdded(x.path);
      KeyOfSplit(b.key);
    }
  }

  lemma LiesAtNamed(flat: Flat, i: int, x: Located)
    requires LiesAt(flat, i, x)
    ensures 0 <= i < |flat| && x.path == Split(flat[i].key, '.') && flat[i] == Binding(KeyOf(x.path), x.text)
  {
    KeyOfSplit(flat[i].key);
    hide Split, KeyOf;
  }

  lemma LiesAtIts(flat: Flat, i: nat)
    requires i < |flat|
    ensures LiesAt(flat, i, Located(Split(flat[i].key, '.'), flat[i].value))
  {
  }

  lemma KeyOfSplit(key: string)
    ensures KeyOf(Split(key, '.')) == key
  {
    JoinOfSplit(key, '.');
  }

  lemma RebuiltIsNameable(flat: Flat)
    requires PrefixFree(flat) && forall i | 0 <= i < |flat| :: !LeadingDot(flat[i].key)
    ensures Nameable([], Leaves(Rebuild(flat)))
  {
    hide Leaves, Rebuild, PrefixFree, Split, LeadingDot, LiesAt, Settable, OwnKeys;
    var leaves := Leaves(Rebuild(flat));
    forall i | 0 <= i < |leaves| && |leaves[i].path| > 1
      ensures leaves[i].path[0] != ""
    {
      RebuiltLeaves(flat, leaves[i]);
      var j :| LiesAt(flat, j, leaves[i]) && Settable(leaves[i].path);
      LiesAtNamed(flat, j, leaves[i]);
      SplitLeadingDot(flat[j].key);
    }
  }

  // A key with a leading dot loses it: the empty first key gives no prefix.

  predicate DotFreeKeys(entries: Entries)
    decreases entries
  {
    entries == [] ||
    (&& '.' !in entries[0].key
     && (entries[0].value.Node? ==> DotFreeKeys(entries[0].value.entries))
     && DotFreeKeys(entries[1..]))
  }

  lemma {:induction false} PutDotFree(root: Entries, key: string, value: Tree)
    requires DotFreeKeys(root) && '.' !in key && (value.Node? ==> DotFreeKeys(value.entries))
    ensures DotFreeKeys(Put(root, key, value))
  {
    if root != [] && root[0].key != key {
      PutDotFree(root[1..], key, value);
      var put := [root[0]] + Put(root[1..], key, value);
      assert put[0] == root[0] && put[1..] == Put(root[1..], key, value);
    } else if root != [] {
      assert ([Binding(key, value)] + root[1..])[1..] == root[1..];
    } else {
      assert [Binding(key, value)][1..] == [];
    }
  }

  lemma {:induction false} SubEntriesDotFree(root: Entries, key: string)
    requires DotFreeKeys(root)
    ensures DotFreeKeys(SubEntries(root, key))
  {
    if root == [] {
    } else {
      SubEntriesDotFree(root[1..], key);
    }
  }

  lemma {:induction false} SetPathDotFree(root: Entries, path: Path, text: string)
    requires DotFreeKeys(root) && forall i | 0 <= i < |path| :: '.' !in path[i]
    ensures DotFreeKeys(SetPath(root, path, text))
    decreases |path|
  {
    hide DotFreeKeys, Put, SubEntries, Has, Inherited, HasSetter;
    if |path| == 1 {
      PutDotFree(root, path[0], Leaf(text));
    } else if |path| > 1 {
      SubEntriesDotFree(root, path[0]);
      SetPathDotFree(SubEntries(root, path[0]), path[1..], text);
      PutDotFree(root, path[0], Node(SetPath(SubEntries(root, path[0]), path[1..], text)));
    }
  }

  lemma {:induction false} RebuildDotFree(root: Entries, flat: Flat)
    requires DotFreeKeys(root)
    ensures DotFreeKeys(RebuildOnto(root, flat))
    decreases |flat|
  {
    hide DotFreeKeys, SetPath, Split;
    if flat == [] {
    } else {
      SplitPartsLackSep(flat[0].key, '.');
      SetPathDotFree(root, Split(flat[0].key, '.'), flat[0].value);
      RebuildDotFree(SetNestedValue(root, flat[0].key, flat[0].value), flat[1..]);
    }
  }

  predicate NoLeadingDots(flat: Flat) {
    forall i | 0 <= i < |flat| :: !LeadingDot(flat[i].key)
  }

  lemma {:induction false} PutNoLeadingDots(out: Flat, key: string, text: string)
    requires NoLeadingDots(out) && !LeadingDot(key)
    ensures NoLeadingDots(Put(out, key, text))
  {
    if out == [] {
    } else {
      assert NoLeadingDots(out[1..]);
      PutNoLeadingDots(out[1..], key, text);
    }
  }

  lemma {:induction false} FlattenNoLeadingDots(entries: Entries, prefix: string, out: Flat)
    requires DotFreeKeys(entries) && !LeadingDot(prefix) && NoLeadingDots(out)
    ensures NoLeadingDots(FlattenInto(entries, prefix, out))
    decreases entries
  {
    if entries == [] {
    } else {
      var fullKey := FullKey(prefix, entries[0].key);
      assert !LeadingDot(fullKey);
      var next :=
        match entries[0].value
        case Leaf(text) => Put(out, fullKey, text)
        case Node(nested) => FlattenInto(nested, fullKey, out);
      match entries[0].value {
        case Leaf(text) => PutNoLeadingDots(out, fullKey, text);
        case Node(nested) => FlattenNoLeadingDots(nested, fullKey, out);
      }
      FlattenNoLeadingDots(entries[1..], prefix, next);
    }
  }

  lemma RebuiltLosesLeadingDots(flat: Flat)
    ensures NoLeadingDots(Flatten(Rebuild(flat)))
  {
    assert DotFreeKeys([]);
    RebuildDotFree([], flat);
    FlattenNoLeadingDots(Rebuild(flat), "", []);
    hide DotFreeKeys, FlattenInto;
  }

  lemma PrefixFreeIsFunctional(flat: Flat)
    requires PrefixFree(flat)
    ensures Agree(flat, flat)
  {
    forall x, y | x in flat && y in flat && x.key == y.key
      ensures x == y
    {
      var i :| 0 <= i < |flat| && flat[i] == x;
      var j :| 0 <= j < |flat| && flat[j] == y;
      assert Split(flat[i].key, '.') <= Split(flat[j].key, '.');
      assert Clash(Split(flat[i].key, '.'), Split(flat[j].key, '.'));
      assert Clash(Split(flat[j].key, '.'), Split(flat[i].key, '.'));
    }
    hide Split;
  }

  predicate AllSettable(flat: Flat) {
    forall i | 0 <= i < |flat| :: Settable(Split(flat[i].key, '.'))
  }

  /**
   Whatever the order of its keys, a prefix-free flat map comes back from rebuilding
   and flattening exactly when no key starts with a dot or runs into an inherited name.
   */
  lemma FlattenInvertsRebuildIff(flat: Flat)
    requires PrefixFree(flat)
    ensures (forall b :: b in Flatten(Rebuild(flat)) <==> b in flat) <==> NoLeadingDots(flat) && AllSettable(flat)
    ensures NoLeadingDots(flat) ==> DistinctKeys(Flatten(Rebuild(flat)))
  {
    var r := Flatten(Rebuild(flat));
    RebuiltLosesLeadingDots(flat);
    if NoLeadingDots(flat) {
      FlattenIsContents(flat);
      if !AllSettable(flat) {
        var i :| 0 <= i < |flat| && !Settable(Split(flat[i].key, '.'));
        assert flat[i] in flat && flat[i] !in r;
      }
    } else {
      var i :| 0 <= i < |flat| && LeadingDot(flat[i].key);
      assert flat[i] in flat;
      assert forall b | b in r :: !LeadingDot(b.key);
    }
    hide Flatten, Rebuild, PrefixFree, Split, Settable;
  }

  /** Without leading dots what comes back are the settable bindings. */
  lemma FlattenIsContents(flat: Flat)
    requires PrefixFree(flat) && NoLeadingDots(flat)
    ensures forall b :: b in Flatten(Rebuild(flat)) <==> b in flat && Settable(Split(b.key, '.'))
    ensures DistinctKeys(Flatten(Rebuild(flat)))
  {
    hide Flatten, Rebuild, PrefixFree, Named, Leaves, LeadingDot, KeyOf, PutAll, Nameable, Split, Settable;
    var named := Named([], Leaves(Rebuild(flat)));
    RebuiltIsNameable(flat);
    FlattenOf(Rebuild(flat));
    FlattenWritesLeaves(Rebuild(flat), [], []);
    forall b
      ensures b in named <==> b in flat && Settable(Split(b.key, '.'))
    {
      RebuiltNames(flat, b);
    }
    PrefixFreeIsFunctional(flat);
    PutAllContents([], named);
  }

  /** A dotted key that runs through `constructor` is lost: the object it finds there is not in the tree. */
  lemma InheritedKeyIsLost()
    ensures var flat := [Binding("constructor.x", "v")];
            PrefixFree(flat) && NoLeadingDots(flat) && Rebuild(flat) == []
  {
    hide SetPath, Split, Clash, Inherited;
    var flat := [Binding("constructor.x", "v")];
    ConstructorPath();
    ConstructorIsInherited();
    LostFromNothing(["constructor", "x"], "v");
    assert flat[1..] == [];
  }

  lemma ConstructorPath()
    ensures Split("constructor.x", '.') == ["constructor", "x"]
  {
    hide Split;
    var path := ["constructor", "x"];
    assert path[1..] == ["x"];
    assert Join(path, '.') == "constructor.x";
    assert '.' !in path[0] && '.' !in path[1];
    SplitOfJoin(path, '.');
  }

  lemma LostFromNothing(path: Path, text: string)
    requires |path| > 1 && Inherited(path[0])
    ensures SetPath([], path, text) == []
  {
    var root: Entries := [];
    assert OwnKeys(root) && Leaves(root) == [];
    SetIsLost(root, path, text);
    hide SetPath, Inherited, Clash;
  }

  lemma ConstructorIsInherited()
    ensures Inherited("constructor")
  {
  }

  /**
   A tree with plain keys and no empty sub-objects comes back from flattening and
   rebuilding, order included, exactly when its keys are its own.
   */
  lemma RebuildInvertsFlattenIff(entries: Entries)
    requires WellShaped(entries) && PlainKeys(entries)
    ensures Rebuild(Flatten(entries)) == entries <==> OwnKeys(entries)
  {
    hide *;
    FlattenNamesLeaves(entries);
    RebuiltLeaves(Flatten(entries), Located([], ""));
    if OwnKeys(entries) {
      OwnKeysComeBack(entries);
    }
  }

  lemma {:induction false} UnderIsSettableIff(key: string, leaves: seq<Located>)
    requires Rooted(leaves) && leaves != []
    ensures AllLeavesSettable(Under(key, leaves)) <==> !Inherited(key) && AllLeavesSettable(leaves)
  {
    hide Inherited, HasSetter;
    UnderIsRooted(key, leaves);
    forall i | 0 <= i < |leaves|
      ensures Settable(Under(key, leaves)[i].path) <==> !Inherited(key) && Settable(leaves[i].path)
    {
      UnderAt(key, leaves, i);
      assert ([key] + leaves[i].path)[1..] == leaves[i].path;
    }
    assert AllLeavesSettable(Under(key, leaves)) ==> Settable(Under(key, leaves)[0].path);
    hide Settable;
  }

  predicate AllLeavesSettable(leaves: seq<Located>) {
    forall i | 0 <= i < |leaves| :: Settable(leaves[i].path)
  }

  lemma AllLeavesSettableSum(a: seq<Located>, b: seq<Located>)
    ensures AllLeavesSettable(a + b) <==> AllLeavesSettable(a) && AllLeavesSettable(b)
  {
    hide Settable;
    if AllLeavesSettable(a + b) {
      assert forall i | 0 <= i < |a| :: a[i] == (a + b)[i];
      assert forall i | 0 <= i < |b| :: b[i] == (a + b)[|a| + i];
    }
  }

  lemma {:induction false} OwnKeysAreSettable(entries: Entries)
    requires WellShaped(entries)
    ensures OwnKeys(entries) <==> AllLeavesSettable(Leaves(entries))
    decreases entries
  {
    hide Inherited, HasSetter, Has, Rooted;
    if entries == [] {
      assert Leaves(entries) == [];
    } else {
      var key, rest := entries[0].key, entries[1..];
      AllLeavesSettableSum(LeavesAt(key, entries[0].value), Leaves(rest));
      OwnKeysAreSettable(rest);
      match entries[0].value {
        case Leaf(text) =>
          assert [Located([key], text)][0].path == [key];
        case Node(nested) =>
          OwnKeysAreSettable(nested);
          WellShapedHasLeaves(nested);
          LeavesAreRooted(nested);
          UnderIsSettableIff(key, Leaves(nested));
      }
      hide AllLeavesSettable, Settable, Under;
    }
  }

  /** The keys of a tree are its own exactly when all dotted keys of its flat form are settable. */
  lemma FlatIsSettableIff(entries: Entries)
    requires WellShaped(entries) && PlainKeys(entries)
    ensures AllSettable(Flatten(entries)) <==> OwnKeys(entries)
  {
    var leaves := Leaves(entries);
    PlainIsNameable(entries);
    OwnKeysAreSettable(entries);
    FlattenNamesLeaves(entries);
    hide Settable, Split, Named, Leaves, Flatten, PlainKeys, WellShaped, OwnKeys, DotFree, Nameable, PrefixFree,
      DistinctKeys;
    NamedLength(leaves);
    forall i | 0 <= i < |leaves|
      ensures Split(Named([], leaves)[i].key, '.') == leaves[i].path
    {
      NameSplits(leaves, i);
    }
  }

  lemma {:induction false} PlainIsDotFree(entries: Entries)
    requires PlainKeys(entries)
    ensures DotFreeKeys(entries)
    decreases entries
  {
    if entries == [] {
    } else {
      if entries[0].value.Node? {
        PlainIsDotFree(entries[0].value.entries);
      }
      PlainIsDotFree(entries[1..]);
    }
  }

  lemma PlainHasNoLeadingDots(entries: Entries)
    requires PlainKeys(entries)
    ensures NoLeadingDots(Flatten(entries))
  {
    PlainIsDotFree(entries);
    FlattenNoLeadingDots(entries, "", []);
    hide PlainKeys, DotFreeKeys, FlattenInto;
  }
}
