/**
 The test plan written by `pytest_collection_modifyitems` (conftest.py):
 one row of title, description and markers per collected test item, after a
 header row. Each item is the part of a pytest item the plugin reads: the
 module's `__name__`, the class's `__name__` if any, the test's name, the test
 function's docstring and the names `iter_markers()` yields, in that order.
 */
module Plan {
  import opened Wrappers
  import opened Text

  datatype TestItem = TestItem(
    moduleName: string,
    cls: Option<string>,
    name: string,
    doc: Option<string>,
    markers: seq<string>)

  /** One row of the CSV file, before quoting. */
  datatype Row = Row(title: string, description: string, markers: string)

  datatype PlanError = MissingDocstring(index: nat)

  function Header(): Row {
    Row("title", "description", "markers")
  }

  /** `<module>.py::<Class>::<name>`, or `<module>.py::<name>` without a class. */
  function Title(item: TestItem): string {
    match item.cls
    case Some(c) => item.moduleName + ".py::" + c + "::" + item.name
    case None => item.moduleName + ".py::" + item.name
  }

  /** The parts of a title, as `str.split("::")` gives them back. */
  function TitleParts(item: TestItem): seq<string> {
    match item.cls
    case Some(c) => [item.moduleName + ".py", c, item.name]
    case None => [item.moduleName + ".py", item.name]
  }

  /** Module and class names are identifiers, so hold no ':'; the test's name
      may hold anything but "::". */
  predicate PlainNames(item: TestItem) {
    ':' !in item.moduleName &&
    (item.cls.Some? ==> ':' !in item.cls.value) &&
    NoOccurrence(item.name, "::")
  }

  /** A title holds two "::" separators with a class and one without, and
      splitting on them gives back the module file, the class and the name. */
  lemma TitleSeparators(item: TestItem)
    requires PlainNames(item)
    ensures SplitOn(Title(item), "::") == TitleParts(item)
    ensures |SplitOn(Title(item), "::")| - 1 == if item.cls.Some? then 2 else 1
  {
    var parts := TitleParts(item);
    var sep := "::";
    var m := item.moduleName + ".py";
    assert sep[0] == ':';
    assert ':' !in m by {
      assert forall i :: 0 <= i < |m| ==> m[i] == (if i < |item.moduleName| then item.moduleName[i] else ".py"[i - |item.moduleName|]);
    }
    assert m + sep == item.moduleName + ".py::";
    match item.cls {
      case Some(c) =>
        var tail := [c, item.name];
        assert parts == [m] + tail && parts[1..] == tail && tail[1..] == [item.name];
        assert Join(tail, sep) == c + sep + item.name;
        assert Join(parts, sep) == m + sep + (c + sep + item.name);
        Assoc3(m + sep, c + sep, item.name);
        Assoc3(m + sep, c, sep);
        SplitJoin(parts, sep);
      case None =>
        assert Join(parts, sep) == m + sep + item.name;
        SplitJoin(parts, sep);
    }
  }

  /** Items with plain names share a title only if they name the same test. */
  lemma TitleInjective(a: TestItem, b: TestItem)
    requires PlainNames(a) && PlainNames(b)
    ensures Title(a) == Title(b) <==>
      a.moduleName == b.moduleName && a.cls == b.cls && a.name == b.name
  {
    if Title(a) == Title(b) {
      TitleSeparators(a);
      TitleSeparators(b);
      var m1, m2 := a.moduleName + ".py", b.moduleName + ".py";
      assert m1 == m2;
      assert m1[..|m1| - 3] == a.moduleName && m2[..|m2| - 3] == b.moduleName;
    }
  }

  /** `re.sub('\n\s+', '\n', doc.strip())`. */
  function Description(doc: string): string {
    CollapseIndent(Strip(doc))
  }

  /** A description has no whitespace at its ends and no indentation after a
      newline, shows the same visible characters as the docstring, and a
      docstring without an inner newline is only stripped. */
  lemma DescriptionShape(doc: string)
    ensures var d := Description(doc);
      Stripped(d) && NoIndent(d) && Visible(d) == Visible(doc) &&
      ('\n' !in Strip(doc) ==> d == Strip(doc))
  {
    var s := Strip(doc);
    StripShape(doc);
    CollapseShape(s);
    CollapseKeepsStripped(s);
    if '\n' !in s {
      CollapseWithoutNewline(s);
    }
  }

  /** Normalising a description again leaves it unchanged. */
  lemma DescriptionIdempotent(doc: string)
    ensures Description(Description(doc)) == Description(doc)
  {
    var d := Description(doc);
    DescriptionShape(doc);
    StripOfStripped(d);
    CollapseFixpoint(d);
  }

  /** Python's `','.join(names)`. */
  function Markers(names: seq<string>): string {
    Join(names, ",")
  }

  /** The markers column keeps every name, in order and with repetitions:
      splitting it on ',' gives the names back, provided there is at least one
      and none holds a comma. */
  lemma MarkersRoundTrip(names: seq<string>)
    requires names != []
    requires forall k :: 0 <= k < |names| ==> ',' !in names[k]
    ensures SplitOn(Markers(names), ",") == names
  {
    NoFirstCharNoOccurrence(names[|names| - 1], ",");
    SplitJoin(names, ",");
  }

  /** The markers column is empty exactly when there are no markers, or a
      single one with an empty name; with two or more there is a comma. */
  lemma MarkersEmpty(names: seq<string>)
    ensures Markers(names) == [] <==> |names| == 0 || (|names| == 1 && names[0] == [])
  {
    if |names| >= 2 {
      assert |Markers(names)| >= |names[0] + ","|;
    }
  }

  /** The row written for one documented item. */
  function RowFor(item: TestItem): Row
    requires item.doc.Some?
  {
    Row(Title(item), Description(item.doc.value), Markers(item.markers))
  }

  /** The rows written before the first item without a docstring (all rows
      when every item has one): `item.obj.__doc__.strip()` raises on `None`,
      after the rows of the earlier items are already written. */
  function Written(items: seq<TestItem>): (rows: seq<Row>)
    ensures |rows| <= |items|
    ensures forall i :: 0 <= i < |rows| ==> items[i].doc.Some? && rows[i] == RowFor(items[i])
    ensures |rows| < |items| ==> items[|rows|].doc.None?
  {
    if items == [] || items[0].doc.None? then []
    else [RowFor(items[0])] + Written(items[1..])
  }

  predicate AllDocumented(items: seq<TestItem>) {
    forall i :: 0 <= i < |items| ==> items[i].doc.Some?
  }

  /** The whole plan: the header and one row per item in collection order, or
      the position of the first item without a docstring. */
  function PlanRows(items: seq<TestItem>): (r: Result<seq<Row>, PlanError>)
    ensures r.Success? <==> AllDocumented(items)
    ensures r.Success? ==>
      |r.value| == 1 + |items| && r.value[0] == Header() &&
      forall i :: 0 <= i < |items| ==> items[i].doc.Some? && r.value[i + 1] == RowFor(items[i])
    ensures r.Failure? ==>
      var k := r.error.index;
      k < |items| && items[k].doc.None? && AllDocumented(items[..k])
  {
    var rows := Written(items);
    if |rows| == |items| then Success([Header()] + rows)
    else Failure(MissingDocstring(|rows|))
  }

  /** When every item has a docstring, every item gets its row. */
  lemma WrittenAll(items: seq<TestItem>)
    requires AllDocumented(items)
    ensures |Written(items)| == |items|
  {
  }

  /** Appending a documented item appends its row. */
  lemma WrittenSnoc(items: seq<TestItem>, item: TestItem)
    requires AllDocumented(items) && item.doc.Some?
    ensures Written(items + [item]) == Written(items) + [RowFor(item)]
  {
    var all := items + [item];
    assert AllDocumented(all) by {
      forall i | 0 <= i < |all| ensures all[i].doc.Some? {
        if i < |items| { assert all[i] == items[i]; }
      }
    }
    WrittenAll(all);
    WrittenAll(items);
    var w, v := Written(all), Written(items) + [RowFor(item)];
    forall i | 0 <= i < |all| ensures w[i] == v[i] {
      if i < |items| { assert all[i] == items[i]; } else { assert all[i] == item; }
    }
  }

  /** Writing stops at the first item without a docstring: the rows written
      are those of the items before it. */
  lemma WrittenStopsAt(items: seq<TestItem>, i: nat)
    requires i < |items| && AllDocumented(items[..i]) && items[i].doc.None?
    ensures Written(items) == Written(items[..i])
  {
    var w := Written(items);
    var pre := items[..i];
    WrittenAll(pre);
    assert forall j :: 0 <= j < i ==> items[j] == pre[j];
    assert |w| == i;
    forall j | 0 <= j < i ensures w[j] == Written(pre)[j] {
      assert pre[j] == items[j];
    }
  }

  /** One more documented item after documented ones adds exactly its row. */
  lemma WrittenStep(items: seq<TestItem>, i: nat)
    requires i < |items| && AllDocumented(items[..i]) && items[i].doc.Some?
    ensures AllDocumented(items[..i + 1])
    ensures Written(items[..i + 1]) == Written(items[..i]) + [RowFor(items[i])]
  {
    assert items[..i + 1] == items[..i] + [items[i]];
    WrittenSnoc(items[..i], items[i]);
  }

  /** The plan is the header before the rows written, or the position where
      writing stopped. */
  lemma PlanRowsWritten(items: seq<TestItem>)
    ensures PlanRows(items) == if AllDocumented(items) then Success([Header()] + Written(items))
      else Failure(MissingDocstring(|Written(items)|))
  {
    if AllDocumented(items) {
      WrittenAll(items);
    }
  }

  /** A docstring written as in the sample suite (a first line, a second line
      indented to the code, and the closing quotes on a line of their own)
      becomes the two lines, left-aligned. */
  lemma TwoLineDocstring(first: string, indent: string, second: string, closing: string)
    requires first != [] && Stripped(first) && '\n' !in first
    requires second != [] && Stripped(second) && '\n' !in second
    requires AllSpace(indent) && AllSpace(closing)
    ensures Description(first + ['\n'] + indent + second + closing) == first + ['\n'] + second
  {
    var body := first + ['\n'] + indent + second;
    var doc := body + closing;
    assert doc[0] == first[0];
    assert TrimStart(doc) == doc;
    assert body[|body| - 1] == second[|second| - 1];
    TrimSpaceTail(body, closing);
    CollapseLine(first, indent, second);
    CollapseWithoutNewline(second);
  }

  /** Dropping trailing whitespace from `body + tail` leaves `body`. */
  lemma {:induction false} TrimSpaceTail(body: string, tail: string)
    requires AllSpace(tail) && (body == [] || !IsSpace(body[|body| - 1]))
    ensures TrimEnd(body + tail) == body
    decreases |tail|
  {
    if tail == [] {
      assert body + tail == body;
    } else {
      var s := body + tail;
      assert s[..|s| - 1] == body + tail[..|tail| - 1];
      TrimSpaceTail(body, tail[..|tail| - 1]);
    }
  }

  /** The sample suite's single-line docstring is only stripped. */
  lemma SampleSingleLine(doc: string)
    requires doc == "The bar test"
    ensures Description(doc) == doc
  {
    assert Stripped(doc) && '\n' !in doc;
    StripOfStripped(doc);
    CollapseWithoutNewline(doc);
  }

  /** The sample suite's top-level test: documented on one line, tagged `high`. */
  lemma SampleBarRow(item: TestItem)
    requires item == TestItem("test_foo", None, "test_bar", Some("The bar test"), ["high"])
    ensures RowFor(item) == Row("test_foo.py::test_bar", "The bar test", "high")
  {
    SampleBarTitle(item);
    SampleSingleLine(item.doc.value);
  }

  lemma SampleBarTitle(item: TestItem)
    requires item.moduleName == "test_foo" && item.cls == None && item.name == "test_bar"
    ensures Title(item) == "test_foo.py::test_bar"
  {
  }

  /** The sample suite's method `TestFoo.test_a`: a two-line docstring whose
      second line and closing quotes are indented to the code. Its decorators
      put `high` above `performance`; they apply bottom-up and each appends
      its mark, so `iter_markers()` yields `performance` first. */
  lemma SampleMethodRow(item: TestItem, first: string, second: string, indent: string)
    requires first == "The TestFoo.a test." && second == "Make it a multiline docstring."
    requires indent == "        "
    requires item == TestItem("test_foo", Some("TestFoo"), "test_a",
      Some(first + "\n" + indent + second + "\n" + indent), ["performance", "high"])
    ensures RowFor(item) == Row("test_foo.py::TestFoo::test_a", first + "\n" + second, "performance,high")
  {
    SampleMethodTitle(item);
    SampleMethodDescription(item.doc.value, first, second, indent);
    SampleMethodMarkers(item.markers);
  }

  lemma SampleMethodDescription(doc: string, first: string, second: string, indent: string)
    requires first == "The TestFoo.a test." && second == "Make it a multiline docstring."
    requires indent == "        "
    requires doc == first + "\n" + indent + second + "\n" + indent
    ensures Description(doc) == first + "\n" + second
  {
    assert Stripped(first) && Stripped(second) && AllSpace(indent);
    Assoc3(first + "\n" + indent + second, "\n", indent);
    TwoLineDocstring(first, indent, second, "\n" + indent);
  }

  lemma SampleMethodMarkers(names: seq<string>)
    requires names == ["performance", "high"]
    ensures Markers(names) == "performance,high"
  {
    assert names[1..] == ["high"];
    assert Join(names[1..], ",") == "high";
    assert "performance" + "," + "high" == "performance,high";
  }

  lemma SampleMethodTitle(item: TestItem)
    requires item.moduleName == "test_foo" && item.cls == Some("TestFoo") && item.name == "test_a"
    ensures Title(item) == "test_foo.py::TestFoo::test_a"
  {
  }

  /** The plan of the sample suite: the header, then the two rows in
      collection order. */
  lemma SamplePlan(bar: TestItem, testA: TestItem, first: string, second: string, indent: string)
    requires bar == TestItem("test_foo", None, "test_bar", Some("The bar test"), ["high"])
    requires first == "The TestFoo.a test." && second == "Make it a multiline docstring."
    requires indent == "        "
    requires testA == TestItem("test_foo", Some("TestFoo"), "test_a",
      Some(first + "\n" + indent + second + "\n" + indent), ["performance", "high"])
    ensures PlanRows([bar, testA]) == Success([
      Header(),
      Row("test_foo.py::test_bar", "The bar test", "high"),
      Row("test_foo.py::TestFoo::test_a", first + "\n" + second, "performance,high")])
  {
    SampleBarRow(bar);
    SampleMethodRow(testA, first, second, indent);
    var items := [bar, testA];
    assert items[1..] == [testA] && items[1..][1..] == [];
    assert Written(items) == [RowFor(bar), RowFor(testA)];
    var rows := [Header(), RowFor(bar), RowFor(testA)];
    assert [Header()] + Written(items) == rows;
    assert PlanRows(items) == Success(rows);
    var expected := [
      Header(),
      Row("test_foo.py::test_bar", "The bar test", "high"),
      Row("test_foo.py::TestFoo::test_a", first + "\n" + second, "performance,high")];
    assert rows[1] == expected[1] && rows[2] == expected[2];
    assert rows == expected;
  }
}
