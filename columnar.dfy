/** The batch-to-columnar conversion of the Timeplus output's WriteBatch: each
    message that reads as a JSON object becomes one row holding its values in
    sorted key order; the column list is the sorted key list of the last such
    message; every other message is skipped. */
module Columnar {
  import opened Order

  /** A JSON-compatible structured value. */
  datatype Value =
    | Null
    | Bool(b: bool)
    | Number(n: real)
    | Str(s: string)
    | Array(items: seq<Value>)
    | Object(fields: map<string, Value>)

  /** A message of the batch, as AsStructured sees it: either it fails to parse,
      or it yields a structured value (which may or may not be an object). */
  datatype Message = Unparsable(reason: string) | Structured(value: Value)

  type Row = seq<Value>

  /** The message survives conversion: it parses and is a `map[string]any`. */
  predicate IsRecord(msg: Message) {
    msg.Structured? && msg.value.Object?
  }

  function Fields(msg: Message): map<string, Value>
    requires IsRecord(msg)
  {
    msg.value.fields
  }

  /** The values of `m` at `keys`, in that order. */
  function ValuesAt(m: map<string, Value>, keys: seq<string>): (r: Row)
    requires forall k :: k in keys ==> k in m
  {
    if keys == [] then [] else [m[keys[0]]] + ValuesAt(m, keys[1..])
  }

  /** The row a record contributes: its values in sorted key order. */
  ghost function RowOf(m: map<string, Value>): Row {
    ValuesAt(m, SortedKeys(m.Keys))
  }

  /** The rows of the batch: one per surviving message, in batch order. */
  ghost function Rows(batch: seq<Message>): seq<Row> {
    if batch == [] then []
    else (if IsRecord(batch[0]) then [RowOf(Fields(batch[0]))] else []) + Rows(batch[1..])
  }

  /** The column list of the batch: the sorted keys of the last surviving
      message, or none when nothing survives. */
  ghost function Columns(batch: seq<Message>): seq<string> {
    if batch == [] then []
    else if IsRecord(batch[|batch| - 1]) then SortedKeys(Fields(batch[|batch| - 1]).Keys)
    else Columns(batch[..|batch| - 1])
  }

  /** Positions of the surviving messages, in increasing order. */
  function Survivors(batch: seq<Message>): seq<nat> {
    if batch == [] then []
    else Survivors(batch[..|batch| - 1]) + (if IsRecord(batch[|batch| - 1]) then [|batch| - 1] else [])
  }

  lemma {:induction false} ValuesAtIndex(m: map<string, Value>, keys: seq<string>)
    requires forall k :: k in keys ==> k in m
    ensures |ValuesAt(m, keys)| == |keys|
    ensures forall i :: 0 <= i < |keys| ==> ValuesAt(m, keys)[i] == m[keys[i]]
  {
    if keys != [] {
      ValuesAtIndex(m, keys[1..]);
    }
  }

  /** A record's row and the column list it yields: the keys are strictly
      ascending, they are exactly the map's keys, and the row holds, position
      by position, the value under the key at that position. */
  lemma RowShape(m: map<string, Value>)
    ensures var keys := SortedKeys(m.Keys);
      && StrictlySorted(keys)
      && (forall k :: k in keys <==> k in m)
      && |RowOf(m)| == |keys| == |m|
      && forall i :: 0 <= i < |keys| ==> RowOf(m)[i] == m[keys[i]]
  {
    ValuesAtIndex(m, SortedKeys(m.Keys));
  }

  /** Appending a message to a batch appends its row, if it has one. */
  lemma {:induction false} RowsSnoc(batch: seq<Message>, msg: Message)
    ensures Rows(batch + [msg]) == Rows(batch) + (if IsRecord(msg) then [RowOf(Fields(msg))] else [])
  {
    if batch == [] {
      assert [] + [msg] == [msg];
    } else {
      assert (batch + [msg])[0] == batch[0];
      assert (batch + [msg])[1..] == batch[1..] + [msg];
      RowsSnoc(batch[1..], msg);
    }
  }

  /** Rows keep batch order and drop only non-records: row `j` is the row of the
      `j`-th surviving message, the surviving positions increase, and a position
      survives exactly when its message is a record. */
  lemma {:induction false} RowsOrder(batch: seq<Message>)
    ensures |Rows(batch)| == |Survivors(batch)|
    ensures forall j :: 0 <= j < |Survivors(batch)| ==>
      Survivors(batch)[j] < |batch| && IsRecord(batch[Survivors(batch)[j]]) &&
      Rows(batch)[j] == RowOf(Fields(batch[Survivors(batch)[j]]))
    ensures forall j, k :: 0 <= j < k < |Survivors(batch)| ==> Survivors(batch)[j] < Survivors(batch)[k]
    ensures forall i :: 0 <= i < |batch| && IsRecord(batch[i]) ==> i in Survivors(batch)
    decreases |batch|
  {
    if batch != [] {
      var init := batch[..|batch| - 1];
      var last := batch[|batch| - 1];
      assert batch == init + [last];
      RowsOrder(init);
      RowsSnoc(init, last);
      forall i | 0 <= i < |batch| - 1 && IsRecord(batch[i]) ensures i in Survivors(batch) {
        assert init[i] == batch[i];
      }
    }
  }

  /** The number of rows is the number of messages that are records. */
  lemma RowCount(batch: seq<Message>)
    ensures |Rows(batch)| == |set i | 0 <= i < |batch| && IsRecord(batch[i])|
  {
    RowsOrder(batch);
    var idx := Survivors(batch);
    var s := set i | 0 <= i < |batch| && IsRecord(batch[i]);
    assert s == set j | 0 <= j < |idx| :: idx[j] by {
      forall i | i in s ensures exists j :: 0 <= j < |idx| && idx[j] == i {
        var j :| 0 <= j < |idx| && idx[j] == i;
      }
    }
    DistinctCard(idx);
  }

  lemma {:induction false} DistinctCard(idx: seq<nat>)
    requires forall j, k :: 0 <= j < k < |idx| ==> idx[j] < idx[k]
    ensures |set j | 0 <= j < |idx| :: idx[j]| == |idx|
  {
    if idx != [] {
      var init := idx[..|idx| - 1];
      DistinctCard(init);
      var s := set j | 0 <= j < |init| :: init[j];
      var t := set j | 0 <= j < |idx| :: idx[j];
      assert t == s + {idx[|idx| - 1]};
      assert idx[|idx| - 1] !in s;
    }
  }

  /** The column list is the sorted key list of the last surviving message;
      when no message survives it is empty. */
  lemma {:induction false} ColumnsLast(batch: seq<Message>)
    ensures Survivors(batch) == [] ==> Columns(batch) == []
    ensures Survivors(batch) != [] ==>
      var last := Survivors(batch)[|Survivors(batch)| - 1];
      last < |batch| && IsRecord(batch[last]) && Columns(batch) == SortedKeys(Fields(batch[last]).Keys)
    decreases |batch|
  {
    if batch != [] {
      var init := batch[..|batch| - 1];
      var msg := batch[|batch| - 1];
      assert batch == init + [msg];
      ColumnsLast(init);
      if IsRecord(msg) {
        assert Survivors(batch) == Survivors(init) + [|batch| - 1];
      } else {
        assert Survivors(batch) == Survivors(init);
        assert Columns(batch) == Columns(init);
        if Survivors(init) != [] {
          var last := Survivors(init)[|Survivors(init)| - 1];
          assert init[last] == batch[last];
        }
      }
    }
  }

  /** Go's loop: collect the keys of `m` in whatever order the map yields them,
      then sort.Strings them. */
  method RecordKeys(m: map<string, Value>) returns (keys: seq<string>)
    ensures keys == SortedKeys(m.Keys)
  {
    var collected: seq<string> := [];
    var rest := m.Keys;
    while rest != {}
      invariant rest <= m.Keys
      invariant forall k :: k in collected <==> k in m.Keys && k !in rest
      invariant Distinct(collected)
      decreases |rest|
    {
      var k :| k in rest;
      collected := collected + [k];
      rest := rest - {k};
    }
    keys := Sort(collected);
    SortDistinct(collected);
    forall k ensures k in keys <==> k in collected {
      assert k in keys <==> k in multiset(keys);
      assert k in collected <==> k in multiset(collected);
    }
    StrictlySortedUnique(keys, SortedKeys(m.Keys));
  }

  /** Go's loop `for _, key := range keys { data = append(data, msgJSON[key]) }`. */
  method RecordRow(m: map<string, Value>, keys: seq<string>) returns (data: Row)
    requires forall k :: k in keys ==> k in m
    ensures |data| == |keys|
    ensures forall i :: 0 <= i < |keys| ==> data[i] == m[keys[i]]
  {
    data := [];
    for i := 0 to |keys|
      invariant |data| == i
      invariant forall j :: 0 <= j < i ==> data[j] == m[keys[j]]
    {
      data := data + [m[keys[i]]];
    }
  }

  /** The conversion loop of WriteBatch: returns the column list and the rows. */
  method Columnarize(batch: seq<Message>) returns (cols: seq<string>, rows: seq<Row>)
    ensures cols == Columns(batch) && rows == Rows(batch)
  {
    cols := [];
    rows := [];
    for i := 0 to |batch|
      invariant cols == Columns(batch[..i]) && rows == Rows(batch[..i])
    {
      var msg := batch[i];
      assert batch[..i + 1] == batch[..i] + [msg];
      RowsSnoc(batch[..i], msg);
      if IsRecord(msg) {
        var m := msg.value.fields;
        var keys := RecordKeys(m);
        var data := RecordRow(m, keys);
        ValuesAtIndex(m, keys);
        assert data == RowOf(m);
        rows := rows + [data];
        cols := keys;
      }
    }
    assert batch[..|batch|] == batch;
  }
}

/** The conversion applied to the records of the repository's output test. */
module ColumnarExamples {
  import opened Order
  import opened Columnar

  lemma SortedTestColumns()
    ensures SortedKeys({"col1", "col2", "col3"}) == ["col1", "col2", "col3"]
  {
    assert Less("col1", "col2") && Less("col2", "col3") && Less("col1", "col3");
    StrictlySortedUnique(["col1", "col2", "col3"], SortedKeys({"col1", "col2", "col3"}));
  }

  /** A record with the test's keys yields its three values in column order. */
  lemma TestRecordRow(m: map<string, Value>)
    requires m.Keys == {"col1", "col2", "col3"}
    ensures SortedKeys(m.Keys) == ["col1", "col2", "col3"]
    ensures RowOf(m) == [m["col1"], m["col2"], m["col3"]]
  {
    SortedTestColumns();
    ValuesAtIndex(m, ["col1", "col2", "col3"]);
  }

  /** A batch of two records: their two rows, and the second one's columns. */
  lemma TwoRecordBatch(m1: map<string, Value>, m2: map<string, Value>)
    ensures var batch := [Structured(Object(m1)), Structured(Object(m2))];
      Columns(batch) == SortedKeys(m2.Keys) && Rows(batch) == [RowOf(m1), RowOf(m2)]
  {
    var batch := [Structured(Object(m1)), Structured(Object(m2))];
    assert IsRecord(batch[0]) && IsRecord(batch[1]);
    assert batch[1..] == [batch[1]] && batch[1..][1..] == [];
    assert Rows(batch[1..]) == [RowOf(m2)] + Rows([]);
    assert Rows(batch) == [RowOf(m1)] + Rows(batch[1..]);
  }

  /** The batch of the repository's local output test: two records with the keys
      col1, col2, col3 give those columns, sorted, and one row per record in
      batch order. */
  lemma TwoRecords()
    ensures var batch := [
        Structured(Object(map["col1" := Str("hello"), "col2" := Number(5.0), "col3" := Number(50.0)])),
        Structured(Object(map["col1" := Str("world"), "col2" := Number(10.0), "col3" := Number(100.0)]))];
      && Columns(batch) == ["col1", "col2", "col3"]
      && Rows(batch) == [[Str("hello"), Number(5.0), Number(50.0)], [Str("world"), Number(10.0), Number(100.0)]]
  {
    var m1 := map["col1" := Str("hello"), "col2" := Number(5.0), "col3" := Number(50.0)];
    var m2 := map["col1" := Str("world"), "col2" := Number(10.0), "col3" := Number(100.0)];
    assert m1.Keys == {"col1", "col2", "col3"} && m2.Keys == {"col1", "col2", "col3"};
    TestRecordRow(m1);
    TestRecordRow(m2);
    TwoRecordBatch(m1, m2);
  }

  /** A message that fails to parse in the middle of three is skipped silently;
      the columns come from the last record. */
  lemma SkipUnparsable()
    ensures var batch := [
        Structured(Object(map["a" := Null])),
        Unparsable("invalid character"),
        Structured(Object(map["b" := Bool(true)]))];
      && Columns(batch) == ["b"]
      && Rows(batch) == [[Null], [Bool(true)]]
  {
    var batch := [
        Structured(Object(map["a" := Null])),
        Unparsable("invalid character"),
        Structured(Object(map["b" := Bool(true)]))];
    assert map["a" := Null].Keys == {"a"};
    assert map["b" := Bool(true)].Keys == {"b"};
    assert SortedKeys({"a"}) == ["a"];
    assert SortedKeys({"b"}) == ["b"];
    assert RowOf(map["a" := Null]) == [Null];
    assert RowOf(map["b" := Bool(true)]) == [Bool(true)];
    assert batch[1..][1..][1..] == [];
    assert Rows(batch[1..][1..]) == [[Bool(true)]];
    assert Rows(batch[1..]) == [[Bool(true)]];
  }
}
