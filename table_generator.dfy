/**
 * The in-page table generator (template/js/table-generator.js). Every
 * `<inject-table>` of the document becomes a `<table>` whose header has one
 * cell per `<inject-column>` and whose body has one row per item of the
 * data array the table's `items` attribute names in `tablesData`.
 *
 * The document is a flat sequence of nodes in document order; an
 * `<inject-table>` carries its attributes and its columns. Tables are values:
 * the element that the source both puts in the document and pushes onto
 * `tables` is recorded in both places in its final state.
 */
module TableGenerator {
  import opened JsValue

  type Attrs = map<string, string>

  /** `element.getAttribute(name)`: null when absent. */
  function Attr(a: Attrs, name: string): Option<string> {
    if name in a then Some(a[name]) else None
  }

  /** An `<inject-column>`. */
  datatype Column = Column(attrs: Attrs)

  /** A `<th>` of the generated header. */
  datatype HeadCell = HeadCell(style: Option<string>, className: Option<string>, id: Option<string>,
                               prop: Option<string>, text: string)

  /** A generated `<table>`: copied attributes, the header cells and the body rows of cell texts. */
  datatype Table = Table(className: Option<string>, id: Option<string>, style: Option<string>,
                         items: Option<string>, head: seq<HeadCell>, body: seq<seq<string>>)

  datatype Node = InjectTable(attrs: Attrs, columns: seq<Column>) | TableNode(table: Table) | Other(html: string)

  /** The TypeErrors the generator can throw. */
  datatype TableError =
    | NotIterable    // the data named by `items` is not an array or a string
    | NoProp         // a header cell has no `prop` attribute
    | NotAnObject    // `Reflect.get` on a value that is not an object

  /**
   * The header cell for one column: the `style` attribute, the class and id
   * only when non-empty, the `prop` attribute when present, and the `label`
   * as text (empty when there is no label).
   */
  function HeadCellFor(c: Column): HeadCell {
    var cls := Attr(c.attrs, "class");
    var id := Attr(c.attrs, "id");
    HeadCell(
      Attr(c.attrs, "style"),
      if cls.Some? && cls.value != "" then cls else None,
      if id.Some? && id.value != "" then id else None,
      Attr(c.attrs, "prop"),
      Attr(c.attrs, "label").GetOr(""))
  }

  /**
   * The new table for an `<inject-table>`, before its body is filled: the
   * `class`, `id`, `style` and `items` attributes are copied only when
   * present, and the one header row has one cell per column, in order.
   */
  function NewTable(a: Attrs, cols: seq<Column>): (t: Table)
    ensures t.className == Attr(a, "class") && t.id == Attr(a, "id")
    ensures t.style == Attr(a, "style") && t.items == Attr(a, "items")
    ensures |t.head| == |cols| && t.body == []
    ensures forall i :: 0 <= i < |cols| ==> t.head[i].text == Attr(cols[i].attrs, "label").GetOr("")
    ensures forall i :: 0 <= i < |cols| ==> t.head[i].prop == Attr(cols[i].attrs, "prop")
  {
    Table(Attr(a, "class"), Attr(a, "id"), Attr(a, "style"), Attr(a, "items"),
          seq(|cols|, i requires 0 <= i < |cols| => HeadCellFor(cols[i])), [])
  }

  /** `s.split('.')`. */
  function Split(s: string): (r: seq<string>)
    ensures |r| >= 1
  {
    if s == [] then [""]
    else if s[0] == '.' then [""] + Split(s[1..])
    else var rest := Split(s[1..]); [[s[0]] + rest[0]] + rest[1..]
  }

  /** Prefixing a character to the first part prefixes it to the joined text. */
  lemma JoinConsChar(c: char, x: string, tail: seq<string>)
    ensures Join([[c] + x] + tail, ".") == [c] + Join([x] + tail, ".")
  {
    if tail != [] {
      assert ([[c] + x] + tail)[1..] == tail;
      assert ([x] + tail)[1..] == tail;
    }
  }

  /** Splitting at the dots and joining with dots gives the path back. */
  lemma {:induction false} JoinSplit(s: string)
    ensures Join(Split(s), ".") == s
    decreases |s|
  {
    if s != [] {
      JoinSplit(s[1..]);
      if s[0] == '.' {
        JoinSplitDot(s);
      } else {
        JoinSplitChar(s);
      }
    }
  }

  /** A leading dot adds an empty first segment, which joins back to the dot. */
  lemma JoinSplitDot(s: string)
    requires s != [] && s[0] == '.' && Join(Split(s[1..]), ".") == s[1..]
    ensures Join(Split(s), ".") == s
  {
    var rest := Split(s[1..]);
    assert Split(s) == [""] + rest;
    assert ([""] + rest)[1..] == rest;
    assert Join(Split(s), ".") == "" + "." + Join(rest, ".");
    assert s == [s[0]] + s[1..];
  }

  /** A leading non-dot character joins the first segment, and joins back in front. */
  lemma JoinSplitChar(s: string)
    requires s != [] && s[0] != '.' && Join(Split(s[1..]), ".") == s[1..]
    ensures Join(Split(s), ".") == s
  {
    var rest := Split(s[1..]);
    assert Split(s) == [[s[0]] + rest[0]] + rest[1..];
    JoinConsChar(s[0], rest[0], rest[1..]);
    assert [rest[0]] + rest[1..] == rest;
    assert s == [s[0]] + s[1..];
  }

  /** A first segment without a dot splits off as the first element. */
  lemma {:induction false} SplitFirst(a: string, b: string)
    requires '.' !in a
    ensures Split(a + "." + b) == [a] + Split(b)
  {
    if a != [] {
      assert (a + "." + b)[1..] == a[1..] + "." + b;
      SplitFirst(a[1..], b);
      assert a == [a[0]] + a[1..];
    } else {
      assert a + "." + b == "." + b;
    }
  }

  /** A path without a dot is one segment. */
  lemma {:induction false} SplitSingle(a: string)
    requires '.' !in a
    ensures Split(a) == [a]
  {
    if a != [] {
      SplitSingle(a[1..]);
      assert a == [a[0]] + a[1..];
    }
  }

  datatype Resolved = Resolved(value: Value) | Thrown(error: TableError)

  /** The nested lookups: each remaining segment is read with `Reflect.get`, which throws on a non-object. */
  function Follow(v: Value, segs: seq<string>): Resolved
    decreases |segs|
  {
    if segs == [] then Resolved(v)
    else if !IsObject(v) then Thrown(NotAnObject)
    else Follow(Get(v, segs[0]), segs[1..])
  }

  /**
   * The value of one cell: the first segment of `prop` is read on the item;
   * an object found there is followed through the remaining segments, any
   * other value is used as it is.
   */
  function ResolvePath(item: Value, prop: string): Resolved {
    var segs := Split(prop);
    if !IsObject(item) then Thrown(NotAnObject)
    else
      var val := Get(item, segs[0]);
      if IsObject(val) then Follow(val, segs[1..]) else Resolved(val)
  }

  /** A primitive at the first segment is the cell's value; the remaining segments are ignored. */
  lemma PrimitiveIgnoresRest(item: Value, first: string, rest: string)
    requires '.' !in first && IsObject(item) && !IsObject(Get(item, first))
    ensures ResolvePath(item, first + "." + rest) == Resolved(Get(item, first))
  {
    SplitFirst(first, rest);
  }

  /** A three-segment path without other dots splits into its three segments. */
  lemma SplitThree(a: string, b: string, c: string)
    requires '.' !in a && '.' !in b && '.' !in c
    ensures Split(a + "." + b + "." + c) == [a, b, c]
  {
    SplitFirst(a, b + "." + c);
    SplitFirst(b, c);
    SplitSingle(c);
    assert a + "." + b + "." + c == a + "." + (b + "." + c);
  }

  /** A missing intermediate object makes the lookup throw instead of giving an empty cell. */
  lemma MissingIntermediateThrows(item: Value, a: string, b: string, c: string)
    requires '.' !in a && '.' !in b && '.' !in c
    requires IsObject(item) && IsObject(Get(item, a)) && Get(Get(item, a), b).Undefined?
    ensures ResolvePath(item, a + "." + b + "." + c) == Thrown(NotAnObject)
  {
    SplitThree(a, b, c);
    var val := Get(item, a);
    assert [a, b, c][1..] == [b, c];
    assert Follow(val, [b, c]) == Follow(Get(val, b), [c]) by { assert [b, c][1..] == [c]; }
  }

  /** Through an object at the first segment, a two-segment path reads the second segment on that object. */
  lemma NestedLookup(item: Value, a: string, b: string)
    requires '.' !in a && '.' !in b
    requires IsObject(item) && IsObject(Get(item, a))
    ensures ResolvePath(item, a + "." + b) == Resolved(Get(Get(item, a), b))
  {
    SplitFirst(a, b);
    SplitSingle(b);
    var segs := Split(a + "." + b);
    assert segs == [a, b];
    var val := Get(item, a);
    assert segs[0] == a && segs[1..] == [b];
    assert Follow(val, [b]) == Follow(Get(val, b), []) by { assert [b][1..] == []; }
    assert ResolvePath(item, a + "." + b) == Follow(val, [b]);
  }

  /** `{nestedObject: {nestedName: "Foo"}}` read through `nestedObject.nestedName` gives "Foo". */
  lemma NestedPathExample()
    ensures ResolvePath(Obj(map["nestedObject" := Obj(map["nestedName" := Str("Foo")])]), "nestedObject.nestedName")
      == Resolved(Str("Foo"))
  {
    var inner := Obj(map["nestedName" := Str("Foo")]);
    var item := Obj(map["nestedObject" := inner]);
    assert Get(item, "nestedObject") == inner;
    assert Get(inner, "nestedName") == Str("Foo");
    NestedLookup(item, "nestedObject", "nestedName");
    assert "nestedObject" + "." + "nestedName" == "nestedObject.nestedName";
  }

  /** `val ?? ''` written into a cell: null and undefined give an empty cell, every other value its string. */
  function CellText(v: Value): string {
    if IsNullish(v) then "" else ToJsString(v)
  }

  /**
   * What a cell shows for each kind of value other than numbers: nothing for
   * null and undefined; `true`/`false`; a string as it is; `[object Object]`
   * for an object; nothing for an empty array.
   */
  lemma CellTextByKind(v: Value)
    ensures v.Undefined? || v.Null? ==> CellText(v) == ""
    ensures v.Bool? ==> CellText(v) == (if v.b then "true" else "false")
    ensures v.Str? ==> CellText(v) == v.s
    ensures v.Obj? ==> CellText(v) == "[object Object]"
    ensures v.Arr? && v.items == [] ==> CellText(v) == ""
  {
  }

  /** A number shows its decimal digits, after a minus sign when it is negative. */
  lemma CellTextOfNumber(n: int)
    ensures n >= 0 ==> |CellText(Num(n))| > 0 && DecimalValue(CellText(Num(n))) == n
    ensures n < 0 ==>
      |CellText(Num(n))| > 1 && CellText(Num(n))[0] == '-' && DecimalValue(CellText(Num(n))[1..]) == -n
    ensures forall k :: 0 < k < |CellText(Num(n))| ==> '0' <= CellText(Num(n))[k] <= '9'
  {
    var s := CellText(Num(n));
    if n < 0 {
      assert s == "-" + NatToString(-n);
      assert s[1..] == NatToString(-n);
    } else {
      assert s == NatToString(n);
    }
  }

  /** An array of one element shows that element as a cell would, null and undefined as nothing. */
  lemma CellTextOfSingleton(x: Value)
    ensures CellText(Arr([x])) == CellText(x)
  {
    var parts := seq(1, i requires 0 <= i < 1 => if IsNullish([x][i]) then "" else ToJsString([x][i]));
    assert CellText(Arr([x])) == Join(parts, ",");
    assert parts == [CellText(x)];
  }

  /** Zero and false are written as they are, not as empty cells. */
  lemma FalsyValuesWritten()
    ensures CellText(Num(0)) == "0" && CellText(Bool(false)) == "false" && CellText(Str("")) == ""
  {
    assert NatToString(0) == [Digit(0)];
  }

  /** The cell for one header column: a column without `prop` throws. */
  function CellFor(item: Value, cell: HeadCell): Resolved {
    if cell.prop.None? then Thrown(NoProp) else ResolvePath(item, cell.prop.value)
  }

  /** What a loop produced before it finished or threw. */
  datatype Partial<T> = Partial(done: seq<T>, error: Option<TableError>)

  /** The cells of one body row, one per header cell in header order, up to the first throw. */
  function RowCells(head: seq<HeadCell>, item: Value): Partial<string>
    decreases |head|
  {
    if head == [] then Partial([], None)
    else
      var prev := RowCells(head[..|head| - 1], item);
      if prev.error.Some? then prev
      else match CellFor(item, head[|head| - 1])
        case Resolved(v) => Partial(prev.done + [CellText(v)], None)
        case Thrown(e) => Partial(prev.done, Some(e))
  }

  /** The body rows, one per item in order, up to the first throw (whose row stays partial). */
  function Rows(head: seq<HeadCell>, items: seq<Value>): Partial<seq<string>>
    decreases |items|
  {
    if items == [] then Partial([], None)
    else
      var prev := Rows(head, items[..|items| - 1]);
      if prev.error.Some? then prev
      else
        var row := RowCells(head, items[|items| - 1]);
        Partial(prev.done + [row.done], row.error)
  }

  lemma {:induction false} RowCellsErrorStays(head: seq<HeadCell>, more: seq<HeadCell>, item: Value)
    requires RowCells(head, item).error.Some?
    ensures RowCells(head + more, item) == RowCells(head, item)
    decreases |more|
  {
    var all := head + more;
    if more == [] {
      assert all == head;
    } else {
      var init := more[..|more| - 1];
      assert all[..|all| - 1] == head + init;
      RowCellsErrorStays(head, init, item);
      var prev := RowCells(all[..|all| - 1], item);
      assert prev == RowCells(head, item);
      assert RowCells(all, item) == prev;
    }
  }

  /** One more column extends a row that has not thrown by that column's text, or ends it with its error. */
  lemma RowCellsStep(head: seq<HeadCell>, item: Value, j: nat)
    requires j < |head| && RowCells(head[..j], item).error.None?
    ensures var prev := RowCells(head[..j], item).done;
      var c := CellFor(item, head[j]);
      RowCells(head[..j + 1], item)
        == (if c.Resolved? then Partial(prev + [CellText(c.value)], None) else Partial(prev, Some(c.error)))
  {
    assert head[..j + 1][..j] == head[..j];
    assert head[..j + 1][j] == head[j];
  }

  /** Once a row throws at column `j`, the later columns change nothing. */
  lemma RowCellsStopsAt(head: seq<HeadCell>, item: Value, j: nat)
    requires j < |head| && RowCells(head[..j + 1], item).error.Some?
    ensures RowCells(head, item) == RowCells(head[..j + 1], item)
  {
    RowCellsErrorStays(head[..j + 1], head[j + 1..], item);
    assert head[..j + 1] + head[j + 1..] == head;
  }

  lemma {:induction false} RowsErrorStays(head: seq<HeadCell>, items: seq<Value>, more: seq<Value>)
    requires Rows(head, items).error.Some?
    ensures Rows(head, items + more) == Rows(head, items)
    decreases |more|
  {
    var all := items + more;
    if more == [] {
      assert all == items;
    } else {
      var init := more[..|more| - 1];
      assert all[..|all| - 1] == items + init;
      RowsErrorStays(head, items, init);
      RowsKeepError(head, all);
    }
  }

  /** A body that has thrown is kept as it is by one more item. */
  lemma RowsKeepError(head: seq<HeadCell>, items: seq<Value>)
    requires items != [] && Rows(head, items[..|items| - 1]).error.Some?
    ensures Rows(head, items) == Rows(head, items[..|items| - 1])
  {
  }

  /** One more item extends a body that has not failed by that item's row. */
  lemma RowsStep(head: seq<HeadCell>, items: seq<Value>, i: nat)
    requires i < |items| && Rows(head, items[..i]).error.None?
    ensures Rows(head, items[..i + 1])
         == Partial(Rows(head, items[..i]).done + [RowCells(head, items[i]).done], RowCells(head, items[i]).error)
  {
    assert items[..i + 1][..i] == items[..i];
  }

  /** Once the body fails at item `i`, the items after it change nothing. */
  lemma RowsStopsAt(head: seq<HeadCell>, items: seq<Value>, i: nat)
    requires i < |items| && Rows(head, items[..i + 1]).error.Some?
    ensures Rows(head, items) == Rows(head, items[..i + 1])
  {
    RowsErrorStays(head, items[..i + 1], items[i + 1..]);
    assert items[..i + 1] + items[i + 1..] == items;
  }

  /** A complete row has exactly one cell per header cell, each the text of that column's value. */
  lemma RowCellsShape(head: seq<HeadCell>, item: Value)
    ensures RowCells(head, item).error.None? ==>
      && |RowCells(head, item).done| == |head|
      && forall j :: 0 <= j < |head| ==>
           CellFor(item, head[j]).Resolved? && RowCells(head, item).done[j] == CellText(CellFor(item, head[j]).value)
  {
    if RowCells(head, item).error.None? {
      RowCellsLength(head, item);
      forall j | 0 <= j < |head|
        ensures CellFor(item, head[j]).Resolved? && RowCells(head, item).done[j] == CellText(CellFor(item, head[j]).value)
      {
        RowCellAt(head, item, j);
      }
    }
  }

  /** A complete row has one cell per header cell. */
  lemma {:induction false} RowCellsLength(head: seq<HeadCell>, item: Value)
    requires RowCells(head, item).error.None?
    ensures |RowCells(head, item).done| == |head|
    decreases |head|
  {
    if head != [] {
      RowCellsLast(head, item);
      RowCellsLength(head[..|head| - 1], item);
    }
  }

  /** Cell `j` of a complete row is the text of column `j`'s value. */
  lemma {:induction false} RowCellAt(head: seq<HeadCell>, item: Value, j: nat)
    requires RowCells(head, item).error.None? && j < |head|
    ensures CellFor(item, head[j]).Resolved?
    ensures j < |RowCells(head, item).done|
    ensures RowCells(head, item).done[j] == CellText(CellFor(item, head[j]).value)
    decreases |head|
  {
    var init := head[..|head| - 1];
    var row, prev := RowCells(head, item).done, RowCells(init, item).done;
    RowCellsLast(head, item);
    RowCellsLength(init, item);
    if j < |init| {
      RowCellAt(init, item, j);
      assert head[j] == init[j];
      assert row[j] == prev[j];
    } else {
      assert j == |head| - 1;
      assert row[j] == CellText(CellFor(item, head[|head| - 1]).value);
    }
  }

  /** A complete row of several cells is the row of all but the last cell, then the last cell's text. */
  lemma RowCellsLast(head: seq<HeadCell>, item: Value)
    requires head != [] && RowCells(head, item).error.None?
    ensures RowCells(head[..|head| - 1], item).error.None?
    ensures CellFor(item, head[|head| - 1]).Resolved?
    ensures RowCells(head, item).done
         == RowCells(head[..|head| - 1], item).done + [CellText(CellFor(item, head[|head| - 1]).value)]
  {
  }

  /**
   * A complete body has exactly one row per item, in order, each the row
   * built for that item (whose cells `RowCellsShape` describes).
   */
  lemma {:induction false} RowsShape(head: seq<HeadCell>, items: seq<Value>)
    ensures Rows(head, items).error.None? ==>
      && |Rows(head, items).done| == |items|
      && forall i :: 0 <= i < |items| ==>
           RowCells(head, items[i]).error.None? && Rows(head, items).done[i] == RowCells(head, items[i]).done
    decreases |items|
  {
    if items != [] && Rows(head, items).error.None? {
      var init, last := items[..|items| - 1], items[|items| - 1];
      var prev, row := Rows(head, init), RowCells(head, last);
      assert prev.error.None? && row.error.None?;
      assert Rows(head, items).done == prev.done + [row.done];
      RowsShape(head, init);
      forall i | 0 <= i < |items|
        ensures RowCells(head, items[i]).error.None? && Rows(head, items).done[i] == RowCells(head, items[i]).done
      {
        if i < |init| {
          assert items[i] == init[i];
          assert Rows(head, items).done[i] == prev.done[i];
        } else {
          assert items[i] == last;
        }
      }
    }
  }

  /** `for (const item of data)`: an array yields its elements, a string its characters. */
  function ItemsOf(d: Value): Option<seq<Value>> {
    match d
    case Arr(items) => Some(items)
    case Str(s) => Some(seq(|s|, i requires 0 <= i < |s| => Str([s[i]])))
    case _ => None
  }

  /**
   * `populateTable`: the data is `tablesData[items]` (the key is "null" when
   * the table has no `items` attribute); a body is created and filled.
   */
  function Populated(t: Table, tablesData: map<string, Value>): (Table, Option<TableError>) {
    var data := Get(Obj(tablesData), t.items.GetOr("null"));
    match ItemsOf(data)
    case None => (t.(body := []), Some(NotIterable))
    case Some(items) =>
      var rows := Rows(t.head, items);
      (t.(body := rows.done), rows.error)
  }

  /** The document after `createTables`, the tables it pushed, and the error that stopped it, if any. */
  datatype Expansion = Expansion(doc: seq<Node>, added: seq<Table>, error: Option<TableError>)

  /** `createTables` on a document, one node after the other in document order. */
  function Expand(doc: seq<Node>, tablesData: map<string, Value>): Expansion
    decreases |doc|
  {
    if doc == [] then Expansion([], [], None)
    else
      var prev := Expand(doc[..|doc| - 1], tablesData);
      var last := doc[|doc| - 1];
      if prev.error.Some? then Expansion(prev.doc + [last], prev.added, prev.error)
      else match last
        case InjectTable(a, cols) =>
          var (t, err) := Populated(NewTable(a, cols), tablesData);
          Expansion(prev.doc + [TableNode(t)], prev.added + [t], err)
        case _ => Expansion(prev.doc + [last], prev.added, None)
  }

  lemma {:induction false} ExpandErrorStays(doc: seq<Node>, more: seq<Node>, tablesData: map<string, Value>)
    requires Expand(doc, tablesData).error.Some?
    ensures var e := Expand(doc, tablesData);
      Expand(doc + more, tablesData) == Expansion(e.doc + more, e.added, e.error)
    decreases |more|
  {
    var all := doc + more;
    if more == [] {
      assert all == doc;
    } else {
      assert all[..|all| - 1] == doc + more[..|more| - 1];
      ExpandErrorStays(doc, more[..|more| - 1], tablesData);
      assert (Expand(doc, tablesData).doc + more[..|more| - 1]) + [more[|more| - 1]] == Expand(doc, tablesData).doc + more;
    }
  }

  /** One more node processed after a prefix that did not throw. */
  lemma ExpandStep(doc: seq<Node>, i: nat, tablesData: map<string, Value>)
    requires i < |doc| && Expand(doc[..i], tablesData).error.None?
    ensures var prev := Expand(doc[..i], tablesData);
      doc[i].InjectTable? ==>
        var p := Populated(NewTable(doc[i].attrs, doc[i].columns), tablesData);
        Expand(doc[..i + 1], tablesData) == Expansion(prev.doc + [TableNode(p.0)], prev.added + [p.0], p.1)
    ensures var prev := Expand(doc[..i], tablesData);
      !doc[i].InjectTable? ==> Expand(doc[..i + 1], tablesData) == Expansion(prev.doc + [doc[i]], prev.added, None)
  {
    assert doc[..i + 1][..i] == doc[..i];
  }

  /** A throw at node `i` leaves the rest of the document as it was. */
  lemma ExpandStopsAt(doc: seq<Node>, i: nat, tablesData: map<string, Value>)
    requires i < |doc| && Expand(doc[..i + 1], tablesData).error.Some?
    ensures var e := Expand(doc[..i + 1], tablesData);
      Expand(doc, tablesData) == Expansion(e.doc + doc[i + 1..], e.added, e.error)
  {
    ExpandErrorStays(doc[..i + 1], doc[i + 1..], tablesData);
    assert doc[..i + 1] + doc[i + 1..] == doc;
  }

  /**
   * The state `createTables` keeps between nodes: the first `i` nodes are
   * processed without a throw and the rest are untouched.
   */
  ghost predicate ProcessedUpTo(doc0: seq<Node>, i: nat, tablesData: map<string, Value>,
                                document: seq<Node>, tables0: seq<Table>, tables: seq<Table>)
    requires i <= |doc0|
  {
    var e := Expand(doc0[..i], tablesData);
    && e.error.None?
    && document == e.doc + doc0[i..]
    && tables == tables0 + e.added
  }

  /** Replacing the `<inject-table>` at `i` by its populated table moves the processed state one node on, or ends it with the throw. */
  lemma ReplaceStep(doc0: seq<Node>, i: nat, tablesData: map<string, Value>,
                    document: seq<Node>, tables0: seq<Table>, tables: seq<Table>, t: Table, err: Option<TableError>)
    requires i < |doc0| && ProcessedUpTo(doc0, i, tablesData, document, tables0, tables)
    requires doc0[i].InjectTable? && (t, err) == Populated(NewTable(doc0[i].attrs, doc0[i].columns), tablesData)
    ensures i < |document|
    ensures var e := Expand(doc0[..i + 1], tablesData);
      && e.error == err
      && document[i := TableNode(t)] == e.doc + doc0[i + 1..]
      && tables + [t] == tables0 + e.added
  {
    var prev := Expand(doc0[..i], tablesData);
    ExpandLength(doc0[..i], tablesData);
    ExpandStep(doc0, i, tablesData);
    assert doc0[i..] == [doc0[i]] + doc0[i + 1..];
    ReplaceAfterPrefix(prev.doc, doc0[i], doc0[i + 1..], TableNode(t));
    AppendAssoc(tables0, prev.added, [t]);
  }

  lemma ReplaceAfterPrefix<T>(done: seq<T>, x: T, rest: seq<T>, y: T)
    ensures (done + ([x] + rest))[|done| := y] == (done + [y]) + rest
  {
  }

  /** Passing over a node that is not an `<inject-table>` moves the processed state one node on. */
  lemma SkipStep(doc0: seq<Node>, i: nat, tablesData: map<string, Value>,
                 document: seq<Node>, tables0: seq<Table>, tables: seq<Table>)
    requires i < |doc0| && ProcessedUpTo(doc0, i, tablesData, document, tables0, tables)
    requires !doc0[i].InjectTable?
    ensures ProcessedUpTo(doc0, i + 1, tablesData, document, tables0, tables)
  {
    var prev := Expand(doc0[..i], tablesData);
    ExpandStep(doc0, i, tablesData);
    assert doc0[i..] == [doc0[i]] + doc0[i + 1..];
    assert document == (prev.doc + [doc0[i]]) + doc0[i + 1..];
  }

  /** The node an `<inject-table>` becomes when nothing throws; other nodes stay. */
  function Expanded(n: Node, tablesData: map<string, Value>): Node {
    match n
    case InjectTable(a, cols) => TableNode(Populated(NewTable(a, cols), tablesData).0)
    case _ => n
  }

  function CountInjectTables(doc: seq<Node>): nat
    decreases |doc|
  {
    if doc == [] then 0
    else CountInjectTables(doc[..|doc| - 1]) + (if doc[|doc| - 1].InjectTable? then 1 else 0)
  }

  /**
   * The tables `out` holds at the positions where `doc` has an
   * `<inject-table>`, in document order.
   */
  function TablesAt(doc: seq<Node>, out: seq<Node>): seq<Table>
    requires |out| == |doc|
    decreases |doc|
  {
    if doc == [] then []
    else
      var k := |doc| - 1;
      TablesAt(doc[..k], out[..k]) + (if doc[k].InjectTable? && out[k].TableNode? then [out[k].table] else [])
  }

  /**
   * The tables pushed are exactly the tables left in the document where an
   * `<inject-table>` stood, in document order, whether or not a throw
   * stopped the run (the one that threw is pushed and in place too).
   */
  lemma {:induction false} ExpandAdded(doc: seq<Node>, tablesData: map<string, Value>)
    ensures |Expand(doc, tablesData).doc| == |doc|
    ensures Expand(doc, tablesData).added == TablesAt(doc, Expand(doc, tablesData).doc)
    decreases |doc|
  {
    ExpandLength(doc, tablesData);
    if doc != [] {
      var k := |doc| - 1;
      var e, prev := Expand(doc, tablesData), Expand(doc[..k], tablesData);
      ExpandAdded(doc[..k], tablesData);
      assert e.doc[..k] == prev.doc;
    }
  }

  /**
   * When nothing throws, each `<inject-table>` is replaced in place by
   * exactly one table, which is also pushed onto `tables`; no
   * `<inject-table>` remains and every other node is untouched.
   */
  lemma {:induction false} ExpandShape(doc: seq<Node>, tablesData: map<string, Value>)
    ensures |Expand(doc, tablesData).doc| == |doc|
    ensures Expand(doc, tablesData).error.None? ==>
      var e := Expand(doc, tablesData);
      && (forall i :: 0 <= i < |doc| ==> e.doc[i] == Expanded(doc[i], tablesData))
      && (forall i :: 0 <= i < |doc| ==> !e.doc[i].InjectTable?)
      && |e.added| == CountInjectTables(doc)
    ensures Expand(doc, tablesData).added == TablesAt(doc, Expand(doc, tablesData).doc)
    decreases |doc|
  {
    ExpandLength(doc, tablesData);
    ExpandAdded(doc, tablesData);
    if doc != [] && Expand(doc, tablesData).error.None? {
      var init := doc[..|doc| - 1];
      var e, prev := Expand(doc, tablesData), Expand(init, tablesData);
      ExpandLast(doc, tablesData);
      ExpandShape(init, tablesData);
      forall i | 0 <= i < |doc|
        ensures e.doc[i] == Expanded(doc[i], tablesData) && !e.doc[i].InjectTable?
      {
        if i < |init| {
          assert doc[i] == init[i];
          assert e.doc[i] == prev.doc[i];
        }
      }
    }
  }

  /** Every node of the document stands for exactly one node of the result. */
  lemma {:induction false} ExpandLength(doc: seq<Node>, tablesData: map<string, Value>)
    ensures |Expand(doc, tablesData).doc| == |doc|
    decreases |doc|
  {
    if doc != [] {
      ExpandLength(doc[..|doc| - 1], tablesData);
    }
  }

  /** A run that did not throw is the run on all but the last node, then the last node expanded. */
  lemma ExpandLast(doc: seq<Node>, tablesData: map<string, Value>)
    requires doc != [] && Expand(doc, tablesData).error.None?
    ensures var prev := Expand(doc[..|doc| - 1], tablesData);
      && prev.error.None?
      && Expand(doc, tablesData).doc == prev.doc + [Expanded(doc[|doc| - 1], tablesData)]
      && CountInjectTables(doc) - |Expand(doc, tablesData).added|
         == CountInjectTables(doc[..|doc| - 1]) - |prev.added|
  {
  }

  /** On a document without `<inject-table>` nothing changes and no table is added. */
  lemma {:induction false} NoInjectTableNoChange(doc: seq<Node>, tablesData: map<string, Value>)
    requires forall i :: 0 <= i < |doc| ==> !doc[i].InjectTable?
    ensures Expand(doc, tablesData) == Expansion(doc, [], None)
    decreases |doc|
  {
    if doc != [] {
      var init, last := doc[..|doc| - 1], doc[|doc| - 1];
      forall i | 0 <= i < |init| ensures !init[i].InjectTable? {
        assert init[i] == doc[i];
      }
      NoInjectTableNoChange(init, tablesData);
      assert !last.InjectTable?;
      assert Expand(doc, tablesData) == Expansion(init + [last], [], None);
      assert init + [last] == doc;
    }
  }

  /** A second run after a successful one (the load-time call, then the `start` event) adds no tables. */
  lemma SecondRunAddsNothing(doc: seq<Node>, tablesData: map<string, Value>)
    requires Expand(doc, tablesData).error.None?
    ensures var once := Expand(doc, tablesData).doc;
      Expand(once, tablesData) == Expansion(once, [], None)
  {
    ExpandShape(doc, tablesData);
    NoInjectTableNoChange(Expand(doc, tablesData).doc, tablesData);
  }

  /** The cells of one row, column by column (`headColumns.forEach`). */
  method BuildRow(head: seq<HeadCell>, item: Value) returns (cells: seq<string>, err: Option<TableError>)
    ensures Partial(cells, err) == RowCells(head, item)
  {
    cells := [];
    for j := 0 to |head|
      invariant RowCells(head[..j], item) == Partial(cells, None)
    {
      RowCellsStep(head, item, j);
      var c := CellFor(item, head[j]);
      if c.Thrown? {
        RowCellsStopsAt(head, item, j);
        return cells, Some(c.error);
      }
      cells := cells + [CellText(c.value)];
    }
    assert head[..|head|] == head;
    err := None;
  }

  /** The body rows, item by item (`for (const item of data)`). */
  method BuildBody(head: seq<HeadCell>, items: seq<Value>) returns (rows: seq<seq<string>>, err: Option<TableError>)
    ensures Partial(rows, err) == Rows(head, items)
  {
    rows := [];
    for i := 0 to |items|
      invariant Rows(head, items[..i]) == Partial(rows, None)
    {
      var cells, e := BuildRow(head, items[i]);
      RowsStep(head, items, i);
      rows := rows + [cells];
      if e.Some? {
        RowsStopsAt(head, items, i);
        return rows, e;
      }
    }
    assert items[..|items|] == items;
    err := None;
  }

  /** `populateTable` for a table just pushed onto `tables`. */
  method PopulateTable(t: Table, tablesData: map<string, Value>) returns (populated: Table, err: Option<TableError>)
    ensures (populated, err) == Populated(t, tablesData)
  {
    var data := Get(Obj(tablesData), t.items.GetOr("null"));
    var items := ItemsOf(data);
    if items.None? {
      return t.(body := []), Some(NotIterable);
    }
    var rows, e := BuildBody(t.head, items.value);
    populated, err := t.(body := rows), e;
  }

  /** The page the script runs in: the document, the global `tables` array and the injected `tablesData`. */
  class Page {
    var document: seq<Node>
    var tables: seq<Table>
    const tablesData: map<string, Value>

    constructor(document: seq<Node>, tablesData: map<string, Value>)
      ensures this.document == document && this.tablesData == tablesData && tables == []
    {
      this.document := document;
      this.tablesData := tablesData;
      tables := [];
    }

    /** `createTables`: replace each `<inject-table>` in document order; a throw stops the loop. */
    method CreateTables() returns (err: Option<TableError>)
      modifies this
      ensures var e := Expand(old(document), tablesData);
        document == e.doc && tables == old(tables) + e.added && err == e.error
    {
      ghost var doc0 := document;
      ghost var tables0 := tables;
      var n := |document|;
      assert doc0[..0] == [] && doc0[0..] == doc0;
      for i := 0 to n
        invariant |document| == n
        invariant ProcessedUpTo(doc0, i, tablesData, document, tables0, tables)
        invariant forall j :: i <= j < n ==> document[j] == doc0[j]
      {
        if document[i].InjectTable? {
          var t := NewTable(document[i].attrs, document[i].columns);
          var populated, e := PopulateTable(t, tablesData);
          ReplaceStep(doc0, i, tablesData, document, tables0, tables, populated, e);
          document := document[i := TableNode(populated)];
          tables := tables + [populated];
          if e.Some? {
            ExpandStopsAt(doc0, i, tablesData);
            return e;
          }
        } else {
          SkipStep(doc0, i, tablesData, document, tables0, tables);
        }
      }
      assert doc0[..n] == doc0;
      err := None;
    }

    /**
     * The load-time call followed by the `start` event. The second call runs
     * on the document the first left, so after a throw it processes the
     * `<inject-table>` elements the first did not reach; after a success it
     * adds nothing.
     */
    method LoadThenStart() returns (first: Option<TableError>, second: Option<TableError>)
      modifies this
      ensures var e1 := Expand(old(document), tablesData);
        var e2 := Expand(e1.doc, tablesData);
        && first == e1.error && second == e2.error
        && document == e2.doc && tables == old(tables) + e1.added + e2.added
      ensures var e := Expand(old(document), tablesData);
        first.None? ==> second.None? && document == e.doc && tables == old(tables) + e.added
    {
      first := CreateTables();
      second := CreateTables();
      if first.None? {
        SecondRunAddsNothing(old(document), tablesData);
      }
    }
  }
}
