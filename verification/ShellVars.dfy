/** Printing a parameter tree as shell variables: an explicit stack against a recursive printer. */
module ShellVars {
  import opened Lists
  import opened FeatureErrors
  import opened Decimal

  /**
   A parsed YAML value. `text` is the %v rendering of a bool, int or string; every other
   scalar is `Unsupported`. A map is given by its fields, whose keys are distinct.
   */
  datatype Yaml = Scalar(text: string) | Unsupported | List(items: seq<Yaml>) | Map(fields: seq<Field>)
  datatype Field = Field(key: string, value: Yaml)

  /** What the stack holds. */
  datatype Entry = Entry(prefix: string, node: Yaml)

  // ---- names and lines ----

  function Lookup(fields: seq<Field>, key: string): Option<Yaml> {
    if fields == [] then None
    else if fields[0].key == key then Some(fields[0].value)
    else Lookup(fields[1..], key)
  }

  function Joined(prefix: string, name: string): string {
    if prefix == "" then name else prefix + "_" + name
  }

  /** A list item is called by its scalar `name` field, if it has one, or else by its index. */
  function ItemName(item: Yaml, i: nat): string {
    match item
    case Map(fields) =>
      (match Lookup(fields, "name")
       case Some(Scalar(text)) => text
       case _ => Itoa(i))
    case _ => Itoa(i)
  }

  function Items(prefix: string, items: seq<Yaml>): (r: seq<Entry>)
    ensures |r| == |items|
    ensures forall i :: 0 <= i < |r| ==> r[i] == Entry(Joined(prefix, ItemName(items[i], i)), items[i])
  {
    seq(|items|, i requires 0 <= i < |items| => Entry(Joined(prefix, ItemName(items[i], i)), items[i]))
  }

  function Members(prefix: string, fields: seq<Field>): (r: seq<Entry>)
    ensures |r| == |fields|
    ensures forall i :: 0 <= i < |r| ==> r[i] == Entry(Joined(prefix, fields[i].key), fields[i].value)
  {
    seq(|fields|, i requires 0 <= i < |fields| => Entry(Joined(prefix, fields[i].key), fields[i].value))
  }

  function Quoted(s: string): string { " '" + s + "'" }

  function QuotedNames(entries: seq<Entry>): string {
    if entries == [] then "" else QuotedNames(entries[..|entries| - 1]) + Quoted(entries[|entries| - 1].prefix)
  }

  function QuotedTexts(items: seq<Yaml>): string
    requires OnlyScalars(items)
  {
    if items == [] then "" else QuotedTexts(items[..|items| - 1]) + Quoted(items[|items| - 1].text)
  }

  predicate OnlyScalars(items: seq<Yaml>) {
    forall i :: 0 <= i < |items| ==> items[i].Scalar?
  }

  function Header(prefix: string, entries: seq<Entry>): string {
    prefix + "=(" + QuotedNames(entries) + " )"
  }

  function MapPrefix(prefix: string): string {
    if prefix == "" then "_" else prefix
  }

  // ---- the recursive printer ----

  function Weight(node: Yaml): nat {
    match node
    case Scalar(_) => 1
    case Unsupported => 1
    case List(items) => 1 + ItemsWeight(items)
    case Map(fields) => 1 + FieldsWeight(fields)
  }

  function ItemsWeight(items: seq<Yaml>): nat {
    if items == [] then 0 else Weight(items[0]) + ItemsWeight(items[1..])
  }

  function FieldsWeight(fields: seq<Field>): nat {
    if fields == [] then 0 else Weight(fields[0].value) + FieldsWeight(fields[1..])
  }

  function EntriesWeight(entries: seq<Entry>): nat {
    if entries == [] then 0 else Weight(entries[0].node) + EntriesWeight(entries[1..])
  }

  /** `lines` is what a recursive preorder printer may print for the node, maps being visited in any order. */
  ghost predicate Prints(prefix: string, node: Yaml, lines: seq<string>)
    decreases Weight(node), 1
  {
    match node
    case Scalar(text) => lines == [prefix + "='" + text + "'"]
    case Unsupported => lines == []
    case List(items) =>
      if OnlyScalars(items) then lines == [prefix + "=(" + QuotedTexts(items) + " )"]
      else
        ItemsWeigh(prefix, items);
        lines != [] && lines[0] == Header(prefix, Items(prefix, items)) && PrintsAll(Items(prefix, items), lines[1..])
    case Map(fields) =>
      exists order :: MapPrints(prefix, fields, order, lines)
  }

  /** The header names the fields in the very order in which their blocks follow. */
  ghost predicate MapPrints(prefix: string, fields: seq<Field>, order: seq<Field>, lines: seq<string>)
    decreases 1 + FieldsWeight(fields), 0
  {
    && multiset(order) == multiset(fields)
    && lines != [] && lines[0] == Header(MapPrefix(prefix), Members(prefix, order))
    && (MembersWeigh(prefix, order, fields); PrintsAll(Members(prefix, order), lines[1..]))
  }

  /** One block of lines for each entry, in order. */
  ghost predicate PrintsAll(entries: seq<Entry>, lines: seq<string>)
    decreases EntriesWeight(entries), 2, |entries|
  {
    if entries == [] then lines == []
    else exists k :: 0 <= k <= |lines| && Block(entries, lines, k)
  }

  ghost predicate Block(entries: seq<Entry>, lines: seq<string>, k: nat)
    requires entries != [] && k <= |lines|
    decreases EntriesWeight(entries), 2, |entries|, 0
  {
    WeightPositive(entries[0].node);
    Prints(entries[0].prefix, entries[0].node, lines[..k]) && PrintsAll(entries[1..], lines[k..])
  }

  lemma WeightPositive(node: Yaml)
    ensures Weight(node) > 0
  {
  }

  lemma {:induction false} ItemsWeigh(prefix: string, items: seq<Yaml>)
    ensures EntriesWeight(Items(prefix, items)) == ItemsWeight(items)
  {
    EntriesOfItems(Items(prefix, items), items);
  }

  lemma {:induction false} EntriesOfItems(entries: seq<Entry>, items: seq<Yaml>)
    requires |entries| == |items| && forall i :: 0 <= i < |items| ==> entries[i].node == items[i]
    ensures EntriesWeight(entries) == ItemsWeight(items)
  {
    if items != [] {
      EntriesOfItems(entries[1..], items[1..]);
    }
  }

  lemma {:induction false} MembersWeigh(prefix: string, order: seq<Field>, fields: seq<Field>)
    requires multiset(order) == multiset(fields)
    ensures EntriesWeight(Members(prefix, order)) == FieldsWeight(fields)
  {
    EntriesOfFields(Members(prefix, order), order);
    ReorderedWeight(order, fields);
  }

  lemma {:induction false} EntriesOfFields(entries: seq<Entry>, fields: seq<Field>)
    requires |entries| == |fields| && forall i :: 0 <= i < |fields| ==> entries[i].node == fields[i].value
    ensures EntriesWeight(entries) == FieldsWeight(fields)
  {
    if fields != [] {
      EntriesOfFields(entries[1..], fields[1..]);
    }
  }

  lemma {:induction false} ReorderedWeight(a: seq<Field>, b: seq<Field>)
    requires multiset(a) == multiset(b)
    ensures FieldsWeight(a) == FieldsWeight(b)
    decreases |a|
  {
    SameLength(a, b);
    if a != [] {
      var i := HeadIn(a, b);
      ReorderedWeight(a[1..], b[..i] + b[i + 1..]);
      WeightTakeOut(b, i);
    }
  }

  lemma HeadIn(a: seq<Field>, b: seq<Field>) returns (i: nat)
    requires a != [] && multiset(a) == multiset(b)
    ensures i < |b| && b[i] == a[0] && multiset(a[1..]) == multiset(b[..i] + b[i + 1..])
  {
    i := Position(a[0], b) by {
      assert a[0] in multiset(a);
    }
    TakeOut(b, i);
    TailOut(a);
  }

  lemma TailOut(a: seq<Field>)
    requires a != []
    ensures multiset(a[1..]) == multiset(a) - multiset{a[0]}
  {
    assert a == [a[0]] + a[1..];
  }

  lemma WeightTakeOut(b: seq<Field>, i: nat)
    requires i < |b|
    ensures FieldsWeight(b) == Weight(b[i].value) + FieldsWeight(b[..i] + b[i + 1..])
  {
    FieldsWeightConcat(b[..i], b[i..]);
    FieldsWeightConcat(b[..i], b[i + 1..]);
    assert b == b[..i] + b[i..] && b[i..][1..] == b[i + 1..];
  }

  lemma Position(f: Field, b: seq<Field>) returns (i: nat)
    requires f in multiset(b)
    ensures i < |b| && b[i] == f
  {
    i :| 0 <= i < |b| && b[i] == f;
  }

  lemma TakeOut(b: seq<Field>, i: nat)
    requires i < |b|
    ensures multiset(b[..i] + b[i + 1..]) == multiset(b) - multiset{b[i]}
  {
    assert b == b[..i] + [b[i]] + b[i + 1..];
  }

  lemma {:induction false} FieldsWeightConcat(a: seq<Field>, b: seq<Field>)
    ensures FieldsWeight(a + b) == FieldsWeight(a) + FieldsWeight(b)
  {
    if a == [] {
      assert a + b == b;
    } else {
      assert (a + b)[1..] == a[1..] + b;
      FieldsWeightConcat(a[1..], b);
    }
  }

  // ---- the printed text, spelled out ----

  /** Each name quoted, with a space in front. */
  function Spaced(names: seq<string>): string {
    if names == [] then "" else Spaced(DropLast(names)) + " '" + Last(names) + "'"
  }

  /** The item is a map whose `name` is the scalar `text`. */
  ghost predicate HasName(item: Yaml, text: string) {
    item.Map? && exists j :: 0 <= j < |item.fields| && item.fields[j] == Field("name", Scalar(text))
                             && forall k :: 0 <= k < j ==> item.fields[k].key != "name"
  }

  /** An item is called by its scalar name, and only without one by its index, in decimal. */
  ghost predicate Called(item: Yaml, i: nat, name: string) {
    if exists text :: HasName(item, text) then HasName(item, name)
    else AllDigits(name) && name != "" && ParseNat(name) == i && (name[0] == '0' ==> i == 0)
  }

  /** Names are joined by an underscore; at the root there is nothing to join to. */
  ghost predicate ChildOf(prefix: string, name: string, full: string) {
    if prefix == "" then full == name else full == prefix + "_" + name
  }

  lemma {:induction false} LookupFirst(fields: seq<Field>, key: string)
    ensures match Lookup(fields, key)
            case Some(v) => exists j :: 0 <= j < |fields| && fields[j] == Field(key, v) && forall k :: 0 <= k < j ==> fields[k].key != key
            case None => forall j :: 0 <= j < |fields| ==> fields[j].key != key
  {
    if fields != [] && fields[0].key != key {
      LookupFirst(fields[1..], key);
      if Lookup(fields, key).Some? {
        var v := Lookup(fields, key).value;
        var j :| 0 <= j < |fields[1..]| && fields[1..][j] == Field(key, v) && forall k :: 0 <= k < j ==> fields[1..][k].key != key;
        assert fields[j + 1] == Field(key, v);
        forall k | 0 <= k < j + 1 ensures fields[k].key != key {
          assert k > 0 ==> fields[1..][k - 1].key != key;
        }
      }
      forall j | 0 <= j < |fields| && Lookup(fields, key).None? ensures fields[j].key != key {
        assert j > 0 ==> fields[1..][j - 1].key != key;
      }
    } else if fields != [] {
      assert fields[0] == Field(key, fields[0].value);
    }
  }

  lemma ItemIsCalled(item: Yaml, i: nat)
    ensures Called(item, i, ItemName(item, i))
  {
    ItoaParse(i);
    if item.Map? {
      LookupFirst(item.fields, "name");
      if text :| HasName(item, text) {
        var j :| 0 <= j < |item.fields| && item.fields[j] == Field("name", Scalar(text))
                 && forall k :: 0 <= k < j ==> item.fields[k].key != "name";
        FirstIsLookup(item.fields, "name", j);
      }
    }
  }

  lemma FirstIsLookup(fields: seq<Field>, key: string, j: nat)
    requires j < |fields| && fields[j].key == key && forall k :: 0 <= k < j ==> fields[k].key != key
    ensures Lookup(fields, key) == Some(fields[j].value)
  {
    LookupFirst(fields, key);
  }

  function Flat(blocks: seq<seq<string>>): seq<string> {
    if blocks == [] then [] else blocks[0] + Flat(blocks[1..])
  }

  /** One block of lines for each entry. */
  lemma {:induction false} BlocksOf(entries: seq<Entry>, lines: seq<string>) returns (blocks: seq<seq<string>>)
    requires PrintsAll(entries, lines)
    ensures |blocks| == |entries| && Flat(blocks) == lines
    ensures forall i :: 0 <= i < |entries| ==> Prints(entries[i].prefix, entries[i].node, blocks[i])
  {
    if entries == [] {
      blocks := [];
    } else {
      var k :| 0 <= k <= |lines| && Block(entries, lines, k);
      var rest := BlocksOf(entries[1..], lines[k..]);
      blocks := [lines[..k]] + rest;
      assert blocks[1..] == rest && lines == lines[..k] + lines[k..];
      forall i | 0 <= i < |entries| ensures Prints(entries[i].prefix, entries[i].node, blocks[i]) {
        assert i > 0 ==> entries[1..][i - 1] == entries[i] && rest[i - 1] == blocks[i];
      }
    }
  }

  lemma {:induction false} HeaderText(entries: seq<Entry>, names: seq<string>)
    requires |names| == |entries| && forall i :: 0 <= i < |names| ==> names[i] == entries[i].prefix
    ensures QuotedNames(entries) == Spaced(names)
  {
    if entries != [] {
      HeaderText(entries[..|entries| - 1], DropLast(names));
    }
  }

  lemma {:induction false} TextsText(items: seq<Yaml>, texts: seq<string>)
    requires OnlyScalars(items) && |texts| == |items| && forall i :: 0 <= i < |items| ==> items[i] == Scalar(texts[i])
    ensures QuotedTexts(items) == Spaced(texts)
  {
    if items != [] {
      TextsText(items[..|items| - 1], DropLast(texts));
    }
  }

  /** A scalar is one assignment, a list of scalars one array; what is unsupported prints nothing. */
  lemma ScalarsPrinted(prefix: string, node: Yaml, texts: seq<string>, lines: seq<string>)
    requires Prints(prefix, node, lines)
    ensures node.Scalar? ==> lines == [prefix + "='" + node.text + "'"]
    ensures node.Unsupported? ==> lines == []
    ensures node.List? && |texts| == |node.items| && (forall i :: 0 <= i < |texts| ==> node.items[i] == Scalar(texts[i])) ==>
              lines == [prefix + "=(" + Spaced(texts) + " )"]
  {
    if node.List? && |texts| == |node.items| && (forall i :: 0 <= i < |texts| ==> node.items[i] == Scalar(texts[i])) {
      TextsText(node.items, texts);
    }
  }

  ghost predicate NamedItem(prefix: string, item: Yaml, i: nat, full: string) {
    exists name :: Called(item, i, name) && ChildOf(prefix, name, full)
  }

  lemma ItemIsNamed(prefix: string, item: Yaml, i: nat)
    ensures NamedItem(prefix, item, i, Joined(prefix, ItemName(item, i)))
  {
    ItemIsCalled(item, i);
    assert ChildOf(prefix, ItemName(item, i), Joined(prefix, ItemName(item, i)));
  }

  /** The names in the header and the blocks that follow it. */
  lemma Spelled(kids: seq<Entry>, lines: seq<string>) returns (names: seq<string>, blocks: seq<seq<string>>)
    requires lines != [] && PrintsAll(kids, lines[1..])
    ensures |names| == |blocks| == |kids| && QuotedNames(kids) == Spaced(names) && lines == [lines[0]] + Flat(blocks)
    ensures forall i :: 0 <= i < |kids| ==> names[i] == kids[i].prefix && Prints(names[i], kids[i].node, blocks[i])
  {
    names := seq(|kids|, i requires 0 <= i < |kids| => kids[i].prefix);
    blocks := BlocksOf(kids, lines[1..]);
    HeaderText(kids, names);
  }

  /** The header and the blocks of a list that does not hold scalars only. */
  ghost predicate ListSpelled(prefix: string, items: seq<Yaml>, names: seq<string>, blocks: seq<seq<string>>, lines: seq<string>) {
    && |names| == |blocks| == |items|
    && lines == [prefix + "=(" + Spaced(names) + " )"] + Flat(blocks)
    && forall i :: 0 <= i < |items| ==>
         NamedItem(prefix, items[i], i, names[i]) && Prints(names[i], items[i], blocks[i])
  }

  lemma ListPrinted(prefix: string, items: seq<Yaml>, lines: seq<string>) returns (names: seq<string>, blocks: seq<seq<string>>)
    requires Prints(prefix, List(items), lines) && exists i :: 0 <= i < |items| && !items[i].Scalar?
    ensures ListSpelled(prefix, items, names, blocks, lines)
  {
    var kids := Items(prefix, items);
    names, blocks := Spelled(kids, lines);
    forall i | 0 <= i < |items| ensures NamedItem(prefix, items[i], i, names[i]) {
      ItemIsNamed(prefix, items[i], i);
    }
  }

  /** The header and the blocks of a map, in the order in which it was visited. */
  ghost predicate MapSpelled(prefix: string, fields: seq<Field>, order: seq<Field>, names: seq<string>,
                             blocks: seq<seq<string>>, lines: seq<string>) {
    && multiset(order) == multiset(fields) && |names| == |blocks| == |order|
    && lines == [(if prefix == "" then "_" else prefix) + "=(" + Spaced(names) + " )"] + Flat(blocks)
    && forall i :: 0 <= i < |order| ==> ChildOf(prefix, order[i].key, names[i]) && Prints(names[i], order[i].value, blocks[i])
  }

  lemma MapPrinted(prefix: string, fields: seq<Field>, lines: seq<string>)
    returns (order: seq<Field>, names: seq<string>, blocks: seq<seq<string>>)
    requires Prints(prefix, Map(fields), lines)
    ensures MapSpelled(prefix, fields, order, names, blocks, lines)
  {
    order :| MapPrints(prefix, fields, order, lines);
    var kids := Members(prefix, order);
    names, blocks := Spelled(kids, lines);
  }

  // ---- the stack loop ----

  /** The entries in the order the stack will deliver them; the top is last. */
  function Delivered(stack: seq<Entry>): seq<Entry> {
    if stack == [] then [] else [stack[|stack| - 1]] + Delivered(stack[..|stack| - 1])
  }

  /** Whatever the remaining entries may print completes the output to a print of the root. */
  ghost predicate Remaining(root: seq<Field>, out: seq<string>, todo: seq<Entry>) {
    forall rest :: PrintsAll(todo, rest) ==> Prints("", Map(root), out + rest)
  }

  /** Printing the lines `now` and then the entries `kids` is printing the entry `pn`. */
  ghost predicate Unfolds(pn: Entry, now: seq<string>, kids: seq<Entry>) {
    forall rest :: PrintsAll(kids, rest) ==> Prints(pn.prefix, pn.node, now + rest)
  }

  lemma {:induction false} SplitPrints(a: seq<Entry>, b: seq<Entry>, lines: seq<string>) returns (m: nat)
    requires PrintsAll(a + b, lines)
    ensures m <= |lines| && PrintsAll(a, lines[..m]) && PrintsAll(b, lines[m..])
  {
    if a == [] {
      assert a + b == b && lines[0..] == lines;
      m := 0;
    } else {
      assert (a + b)[1..] == a[1..] + b;
      var k :| 0 <= k <= |lines| && Block(a + b, lines, k);
      var n := SplitPrints(a[1..], b, lines[k..]);
      m := k + n;
      assert lines[..m][..k] == lines[..k] && lines[..m][k..] == lines[k..][..n] && lines[k..][n..] == lines[m..];
      assert Block(a, lines[..m], k);
    }
  }

  lemma Unfold(root: seq<Field>, out: seq<string>, pn: Entry, below: seq<Entry>, now: seq<string>, kids: seq<Entry>)
    requires Remaining(root, out, [pn] + below) && Unfolds(pn, now, kids)
    ensures Remaining(root, out + now, kids + below)
  {
    forall rest | PrintsAll(kids + below, rest) ensures Prints("", Map(root), out + now + rest) {
      var m := SplitPrints(kids, below, rest);
      var todo, lines := [pn] + below, now + rest;
      assert todo[1..] == below;
      assert lines[..|now| + m] == now + rest[..m] && lines[|now| + m..] == rest[m..];
      assert Block(todo, lines, |now| + m);
      assert PrintsAll(todo, lines);
      assert out + now + rest == out + lines;
    }
  }

  lemma LeafUnfolds(pn: Entry, now: seq<string>)
    requires Prints(pn.prefix, pn.node, now)
    ensures Unfolds(pn, now, [])
  {
    assert now + [] == now;
  }

  lemma ListUnfolds(pn: Entry)
    requires pn.node.List? && !OnlyScalars(pn.node.items)
    ensures var kids := Items(pn.prefix, pn.node.items); Unfolds(pn, [Header(pn.prefix, kids)], kids)
  {
    var kids := Items(pn.prefix, pn.node.items);
    forall rest | PrintsAll(kids, rest) ensures Prints(pn.prefix, pn.node, [Header(pn.prefix, kids)] + rest) {
      assert ([Header(pn.prefix, kids)] + rest)[1..] == rest;
    }
  }

  lemma MapUnfolds(pn: Entry, order: seq<Field>)
    requires pn.node.Map? && multiset(order) == multiset(pn.node.fields)
    ensures var kids := Members(pn.prefix, order); Unfolds(pn, [Header(MapPrefix(pn.prefix), kids)], kids)
  {
    var kids := Members(pn.prefix, order);
    var header := Header(MapPrefix(pn.prefix), kids);
    forall rest | PrintsAll(kids, rest) ensures Prints(pn.prefix, pn.node, [header] + rest) {
      assert ([header] + rest)[1..] == rest;
      assert MapPrints(pn.prefix, pn.node.fields, order, [header] + rest);
    }
  }

  lemma {:induction false} WeightConcat(a: seq<Entry>, b: seq<Entry>)
    ensures EntriesWeight(a + b) == EntriesWeight(a) + EntriesWeight(b)
  {
    if a == [] {
      assert a + b == b;
    } else {
      assert (a + b)[1..] == a[1..] + b;
      WeightConcat(a[1..], b);
    }
  }

  /**
   For every tree and every order in which the maps may be visited, the loop ends, and what it
   prints is what the recursive printer prints for those orders.
   */
  method PrintShellVars(root: seq<Field>) returns (out: seq<string>)
    ensures Prints("", Map(root), out)
    ensures exists order, names, blocks :: MapSpelled("", root, order, names, blocks, out)
  {
    out := [];
    var stack := [Entry("", Map(root))];
    LoneEntry(root);
    while |stack| > 0
      invariant Remaining(root, out, Delivered(stack))
      decreases EntriesWeight(Delivered(stack))
    {
      var pn := stack[|stack| - 1];
      stack := stack[..|stack| - 1];
      ghost var below := Delivered(stack);
      assert ([pn] + below)[1..] == below;
      var now, kids := PrintNode(pn);
      Unfold(root, out, pn, below, now, kids);
      WeightConcat(kids, below);
      out := out + now;
      stack := PushReversed(stack, kids);
    }
    assert PrintsAll([], []);
    assert out + [] == out;
    ghost var order, names, blocks := MapPrinted("", root, out);
  }

  lemma LoneEntry(root: seq<Field>)
    ensures Delivered([Entry("", Map(root))]) == [Entry("", Map(root))]
    ensures Remaining(root, [], [Entry("", Map(root))])
  {
    var e := Entry("", Map(root));
    assert Delivered([e]) == [e] + Delivered([]);
    forall rest | PrintsAll([e], rest) ensures Prints("", Map(root), [] + rest) {
      LoneBlock([e], rest);
      assert [] + rest == rest;
    }
  }

  lemma LoneBlock(entries: seq<Entry>, lines: seq<string>)
    requires |entries| == 1 && PrintsAll(entries, lines)
    ensures Prints(entries[0].prefix, entries[0].node, lines)
  {
    var k :| 0 <= k <= |lines| && Block(entries, lines, k);
    assert entries[1..] == [] && PrintsAll(entries[1..], lines[k..]);
    assert lines[k..] == [];
    assert k == |lines|;
    assert lines[..k] == lines;
  }

  /** One turn of the loop: the lines printed for a node, and the entries to visit next. */
  method PrintNode(pn: Entry) returns (now: seq<string>, kids: seq<Entry>)
    ensures Unfolds(pn, now, kids)
    ensures EntriesWeight(kids) < Weight(pn.node)
  {
    now, kids := [], [];
    match pn.node {
      case Scalar(text) =>
        now := [pn.prefix + "='" + text + "'"];
        LeafUnfolds(pn, now);
      case Unsupported =>
        LeafUnfolds(pn, now);
      case List(items) =>
        if OnlyScalars(items) {
          var texts := JoinTexts(items);
          now := [pn.prefix + "=(" + texts + " )"];
          LeafUnfolds(pn, now);
        } else {
          kids := Items(pn.prefix, items);
          var names := JoinNames(kids);
          now := [pn.prefix + "=(" + names + " )"];
          ItemsWeigh(pn.prefix, items);
          ListUnfolds(pn);
        }
      case Map(fields) =>
        var order := IterationOrder(fields);
        kids := Members(pn.prefix, order);
        var names := JoinNames(kids);
        now := [MapPrefix(pn.prefix) + "=(" + names + " )"];
        MembersWeigh(pn.prefix, order, fields);
        MapUnfolds(pn, order);
    }
  }

  method JoinTexts(items: seq<Yaml>) returns (s: string)
    requires OnlyScalars(items)
    ensures s == QuotedTexts(items)
  {
    s := "";
    var i := 0;
    while i < |items|
      invariant 0 <= i <= |items| && s == QuotedTexts(items[..i])
    {
      assert items[..i + 1][..i] == items[..i];
      s := s + Quoted(items[i].text);
      i := i + 1;
    }
    assert items[..i] == items;
  }

  method JoinNames(entries: seq<Entry>) returns (s: string)
    ensures s == QuotedNames(entries)
  {
    s := "";
    var i := 0;
    while i < |entries|
      invariant 0 <= i <= |entries| && s == QuotedNames(entries[..i])
    {
      assert entries[..i + 1][..i] == entries[..i];
      s := s + Quoted(entries[i].prefix);
      i := i + 1;
    }
    assert entries[..i] == entries;
  }

  /** A Go map is visited in any order; every field comes up once. */
  method IterationOrder(fields: seq<Field>) returns (order: seq<Field>)
    ensures multiset(order) == multiset(fields)
  {
    order := [];
    var rest := multiset(fields);
    while rest != multiset{}
      invariant multiset(order) + rest == multiset(fields)
      decreases |rest|
    {
      var f :| f in rest;
      rest := rest - multiset{f};
      order := order + [f];
    }
  }

  /** Pushing from the last entry to the first makes the first come off the stack first. */
  method PushReversed(stack0: seq<Entry>, entries: seq<Entry>) returns (stack: seq<Entry>)
    ensures Delivered(stack) == entries + Delivered(stack0)
  {
    stack := stack0;
    var i := |entries|;
    assert entries[i..] + Delivered(stack0) == Delivered(stack0);
    while i > 0
      invariant 0 <= i <= |entries|
      invariant Delivered(stack) == entries[i..] + Delivered(stack0)
    {
      i := i - 1;
      DeliveredSnoc(stack, entries[i]);
      assert entries[i..] + Delivered(stack0) == [entries[i]] + (entries[i + 1..] + Delivered(stack0));
      stack := stack + [entries[i]];
    }
    assert entries[0..] == entries;
  }

  lemma DeliveredSnoc(stack: seq<Entry>, e: Entry)
    ensures Delivered(stack + [e]) == [e] + Delivered(stack)
  {
    assert (stack + [e])[..|stack|] == stack;
  }
}
