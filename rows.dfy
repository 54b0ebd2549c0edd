/** One record of text fields with typed access: `CommaRow` of comma/comma.py.
    A row keeps its fields as text, an optional header (the column names), and
    the parser and serializer callbacks its session registered, positionally
    or by column name. Parsed values and native values are modelled as text. */
module Rows {
  import opened Common
  import opened Slices

  /** A parser maps stored text to a value, a serializer a value to text. */
  type Callback = string -> string

  /** The registered callbacks: a list (looked up by position), a dict (looked
      up by the column name at that position), or anything else (none). */
  datatype Callbacks = NoCallbacks | ByIndex(list: seq<Callback>) | ByName(dict: map<string, Callback>)

  /** What a row is built from: a list of values, or a dict given as its
      items in insertion order. */
  datatype RowData = Fields(values: seq<string>) | Items(pairs: seq<(string, string)>)

  /** The kinds of key `__getitem__` and `__setitem__` tell apart. */
  datatype Key =
    | Index(i: int)
    | Name(name: string)
    | Slice(start: Option<int>, stop: Option<int>, step: Option<int>)
    | OtherKey

  /** `row[key]` yields one value for an index or a name, a list for a slice. */
  datatype Item = One(value: string) | Many(values: seq<string>)

  /** `header_dict`: every name of the header to a position holding it. The
      dict is built left to right, so a repeated name keeps its LAST position. */
  function HeaderIndex(header: seq<string>): (m: map<string, nat>)
    ensures forall name :: name in m <==> name in header
    ensures forall name :: name in m ==> m[name] < |header| && header[m[name]] == name
    ensures forall name, j :: name in m && m[name] < j < |header| ==> header[j] != name
    decreases |header|
  {
    if header == [] then map[]
    else
      var init, last := header[..|header| - 1], header[|header| - 1];
      assert header == init + [last];
      HeaderIndex(init)[last := |header| - 1]
  }

  /** The state of one row object. `frozen` records that the fields are a
      tuple (the row was built from a dict of text), which refuses assignment. */
  datatype Row = Row(
    fields: seq<string>,
    header: Option<seq<string>>,
    parsers: Callbacks,
    serializers: Callbacks,
    frozen: bool)
  {
    /** `__len__` */
    function Length(): nat {
      |fields|
    }

    /** `_parse(i)`: the text at position `i` passed through the parser
        registered for it; a missing parser leaves the text as it is. */
    function Parse(i: int): (r: Result<string>)
      ensures r.Err? <==> PyIndex(i, |fields|).None? || (parsers.ByName? && header.None?)
      ensures r.Err? ==> r.error == (if PyIndex(i, |fields|).None? then IndexError else TypeError(NotSubscriptableMsg))
    {
      match PyIndex(i, |fields|)
      case None => Err(IndexError)
      case Some(pos) =>
        var text := fields[pos];
        match parsers
        case NoCallbacks => Ok(text)
        case ByIndex(list) =>
          (match PyIndex(i, |list|)
           case None => Ok(text)
           case Some(p) => Ok(list[p](text)))
        case ByName(dict) =>
          if header.None? then Err(TypeError(NotSubscriptableMsg))
          else
            (match PyIndex(i, |header.value|)
             case None => Ok(text)
             case Some(h) => if header.value[h] in dict then Ok(dict[header.value[h]](text)) else Ok(text))
    }

    /** `_serialize(i, data)`: `data` passed through the serializer registered
        for position `i`; a missing serializer leaves it as it is. */
    function Serialize(i: int, data: string): (r: Result<string>)
      ensures r.Err? <==> serializers.ByName? && header.None?
      ensures r.Err? ==> r.error == ValueError(NoHeaderMsg)
    {
      match serializers
      case NoCallbacks => Ok(data)
      case ByIndex(list) =>
        (match PyIndex(i, |list|)
         case None => Ok(data)
         case Some(p) => Ok(list[p](data)))
      case ByName(dict) =>
        if header.None? then Err(ValueError(NoHeaderMsg))
        else
          (match PyIndex(i, |header.value|)
           case None => Ok(data)
           case Some(h) => if header.value[h] in dict then Ok(dict[header.value[h]](data)) else Ok(data))
    }

    /** `map(self._parse, positions)`, stopping at the first failure. */
    function ParseEach(positions: seq<int>): (r: Result<seq<string>>)
      ensures r.Ok? <==> forall k :: 0 <= k < |positions| ==> Parse(positions[k]).Ok?
      ensures r.Ok? ==> |r.value| == |positions| &&
                        forall k :: 0 <= k < |positions| ==> Parse(positions[k]) == Ok(r.value[k])
      ensures r.Err? ==> exists k :: 0 <= k < |positions| && Parse(positions[k]) == Err(r.error)
      decreases |positions|
    {
      if positions == [] then Ok([])
      else
        var v :- Parse(positions[0]);
        var rest :- ParseEach(positions[1..]);
        assert forall k :: 1 <= k < |positions| ==> positions[k] == positions[1..][k - 1];
        Ok([v] + rest)
    }

    /** `row[start:stop:step]` */
    function GetSlice(start: Option<int>, stop: Option<int>, step: Option<int>): (r: Result<seq<string>>)
    {
      var positions :- SliceIndices(start, stop, step, |fields|);
      ParseEach(positions)
    }

    /** `__getitem__(key)`: an integer or a name reads one parsed field,
        a slice a list of them; any other key is a bare TypeError. */
    function Get(key: Key): (r: Result<Item>)
      ensures r.Ok? ==> (r.value.Many? <==> key.Slice?)
      ensures key.Index? ==> (r.Ok? <==> -|fields| <= key.i < |fields| && !(parsers.ByName? && header.None?))
      ensures key.Name? && r.Ok? ==> header.Some? && key.name in header.value
      ensures key.Name? && header.Some? && key.name !in header.value ==> r == Err(KeyError(key.name))
      ensures key.OtherKey? ==> r == Err(TypeError(BadKeyMsg))
    {
      match key
      case Index(i) =>
        var v :- Parse(i);
        Ok(One(v))
      case Name(name) =>
        if header.None? then Err(ValueError(NoHeaderMsg))
        else if name !in HeaderIndex(header.value) then Err(KeyError(name))
        else
          var v :- Parse(HeaderIndex(header.value)[name]);
          Ok(One(v))
      case Slice(start, stop, step) =>
        var vs :- GetSlice(start, stop, step);
        Ok(Many(vs))
      case OtherKey => Err(TypeError(BadKeyMsg))
    }

    /** `list()`, which is `self[:]`: only a parser dict without a header
        can make it fail, and then with TypeError. */
    function AsList(): (r: Result<seq<string>>)
      ensures r.Err? ==> parsers.ByName? && header.None? && r.error == TypeError(NotSubscriptableMsg)
    {
      GetSlice(None, None, None)
    }

    /** The dict comprehension of `dict()` over the first `n` positions:
        header name to parsed value, a later position overwriting an earlier
        one under the same name, so each name maps to the value at the
        position `header_dict` would give it within those `n`. */
    function DictPrefix(n: nat): (r: Result<map<string, string>>)
      requires header.Some? && n <= |fields|
      ensures r.Err? <==> n > |header.value|
      ensures r.Err? ==> r.error == IndexError
      ensures r.Ok? ==> var index := HeaderIndex(header.value[..n]);
                        r.value.Keys == index.Keys &&
                        forall name :: name in index ==> Parse(index[name]) == Ok(r.value[name])
      decreases n
    {
      if n == 0 then Ok(map[])
      else
        var m :- DictPrefix(n - 1);
        if n - 1 >= |header.value| then Err(IndexError)
        else
          assert header.value[..n][..n - 1] == header.value[..n - 1];
          match Parse(n - 1)
          case Ok(v) => Ok(m[header.value[n - 1] := v])
          case Err(e) => Err(e)
    }

    /** `dict()`: it needs a header at least as long as the row, and its
        keys are names of the header. */
    function AsDict(): (r: Result<map<string, string>>)
      ensures r.Err? <==> header.None? || |fields| > |header.value|
      ensures header.None? ==> r == Err(ValueError(NoHeaderMsg))
      ensures r.Ok? ==> forall name :: name in r.value ==> name in header.value
    {
      if header.None? then Err(ValueError(NoHeaderMsg))
      else DictPrefix(|fields|)
    }

    /** Stores `text` at position `i`, as `self.row[i] = text` does: a
        tuple refuses it, an index out of range raises, and otherwise the
        field Python's index names holds `text` and nothing else changes. */
    function Store(i: int, text: string): (r: Result<Row>)
      ensures r.Err? <==> frozen || PyIndex(i, |fields|).None?
      ensures r.Err? ==> r.error == (if frozen then TypeError(TupleAssignMsg) else IndexError)
      ensures r.Ok? ==> r.value.header == header && r.value.parsers == parsers &&
                        r.value.serializers == serializers && r.value.frozen == frozen
      ensures r.Ok? ==> r.value.fields == fields[PyIndex(i, |fields|).value := text]
    {
      if frozen then Err(TypeError(TupleAssignMsg))
      else
        match PyIndex(i, |fields|)
        case None => Err(IndexError)
        case Some(pos) => Ok(this.(fields := fields[pos := text]))
    }

    /** `__setitem__(key, value)` as evidently intended: the value is
        serialized for the position the key resolves to and stored there. */
    function Set(key: Key, value: string): (r: Result<Row>)
      ensures key.Slice? || key.OtherKey? ==> r == Err(TypeError(BadKeyMsg))
      ensures key.Index? ==> (r.Err? <==> (serializers.ByName? && header.None?) || frozen ||
                                          PyIndex(key.i, |fields|).None?)
      ensures key.Index? && r.Ok? ==>
                var pos := PyIndex(key.i, |fields|).value;
                |r.value.fields| == |fields| && Serialize(key.i, value) == Ok(r.value.fields[pos]) &&
                forall j :: 0 <= j < |fields| && j != pos ==> r.value.fields[j] == fields[j]
      ensures r.Ok? ==> r.value.header == header && r.value.parsers == parsers &&
                        r.value.serializers == serializers && r.value.frozen == frozen
      ensures r.Ok? ==> |r.value.fields| == |fields| &&
                        forall a, b :: 0 <= a < |fields| && 0 <= b < |fields| && a != b ==>
                          r.value.fields[a] == fields[a] || r.value.fields[b] == fields[b]
    {
      match key
      case Index(i) =>
        var text :- Serialize(i, value);
        Store(i, text)
      case Name(name) =>
        if header.None? then Err(ValueError(NoHeaderMsg))
        else if name !in HeaderIndex(header.value) then Err(KeyError(name))
        else
          var pos := HeaderIndex(header.value)[name];
          (match Serialize(pos, value)
           case Ok(text) => Store(pos, text)
           case Err(e) => Err(e))
      case _ => Err(TypeError(BadKeyMsg))
    }

    /** `__setitem__(key, value)` as written: an integer key calls
        `self._serialize(key)` without the value, which raises TypeError
        before anything is stored, so only a name can be assigned. */
    function SetAsWritten(key: Key, value: string): (r: Result<Row>)
      ensures r.Ok? ==> key.Name?
      ensures key.Index? ==> r == Err(TypeError(MissingDataMsg))
    {
      if key.Index? then Err(TypeError(MissingDataMsg))
      else Set(key, value)
    }

    /** The comprehension of the constructor over a native row: every value
        of the first `n` positions passed through `_serialize`. */
    function SerializePrefix(n: nat): (r: Result<seq<string>>)
      requires n <= |fields|
      ensures r.Err? <==> n > 0 && serializers.ByName? && header.None?
      ensures r.Err? ==> r.error == ValueError(NoHeaderMsg)
      ensures r.Ok? ==> |r.value| == n && forall i :: 0 <= i < n ==> Serialize(i, fields[i]) == Ok(r.value[i])
      decreases n
    {
      if n == 0 then Ok([])
      else
        var done :- SerializePrefix(n - 1);
        var text :- Serialize(n - 1, fields[n - 1]);
        Ok(done + [text])
    }
  }

  /** What Python (3.10 on) says when `_serialize` is called without `data`. */
  const MissingDataMsg := "CommaRow._serialize() missing 1 required positional argument: 'data'"

  /** The header and fields a row takes from its data: a dict supplies both
      (as tuples; the header argument is ignored), a list only the fields. */
  function Unpack(data: RowData, header: Option<seq<string>>, parsers: Callbacks, serializers: Callbacks): (r: Result<Row>)
    ensures r.Err? <==> data.Items? && data.pairs == []
    ensures r.Ok? ==> r.value.parsers == parsers && r.value.serializers == serializers &&
                      (r.value.frozen <==> data.Items?)
    ensures r.Ok? && data.Fields? ==> r.value.fields == data.values && r.value.header == header
    ensures r.Ok? && data.Items? ==>
              r.value.header.Some? && |r.value.fields| == |r.value.header.value| == |data.pairs| &&
              forall k :: 0 <= k < |data.pairs| ==> data.pairs[k] == (r.value.header.value[k], r.value.fields[k])
  {
    match data
    case Fields(values) => Ok(Row(values, header, parsers, serializers, false))
    case Items(pairs) =>
      if pairs == [] then Err(ValueError(UnpackMsg))
      else
        Ok(Row(seq(|pairs|, k requires 0 <= k < |pairs| => pairs[k].1),
               Some(seq(|pairs|, k requires 0 <= k < |pairs| => pairs[k].0)),
               parsers, serializers, true))
  }

  /** `CommaRow(text_row, native_row, header, parsers, serializers)`. */
  function Build(textRow: Option<RowData>, nativeRow: Option<RowData>, header: Option<seq<string>>,
                 parsers: Callbacks, serializers: Callbacks): (r: Result<Row>)
    ensures textRow.Some? == nativeRow.Some? ==> r == Err(ValueError(ExactlyOneRowMsg))
    ensures r.Ok? ==> r.value.parsers == parsers && r.value.serializers == serializers
    ensures r.Ok? && nativeRow.Some? ==> !r.value.frozen
  {
    if textRow.Some? == nativeRow.Some? then Err(ValueError(ExactlyOneRowMsg))
    else if textRow.Some? then Unpack(textRow.value, header, parsers, serializers)
    else
      var native :- Unpack(nativeRow.value, header, parsers, serializers);
      var texts :- native.SerializePrefix(|native.fields|);
      Ok(native.(fields := texts, frozen := false))
  }

  // ---------------------------------------------------------------------
  // The constructor

  /** Both or neither of `text_row` and `native_row` is a ValueError, and
      that error is raised for nothing else. */
  lemma BuildNeedsExactlyOneRow(textRow: Option<RowData>, nativeRow: Option<RowData>, header: Option<seq<string>>,
                                parsers: Callbacks, serializers: Callbacks)
    ensures Build(textRow, nativeRow, header, parsers, serializers) == Err(ValueError(ExactlyOneRowMsg))
            <==> textRow.Some? == nativeRow.Some?
  {
  }

  /** A row read as text keeps its fields and the header it is given; a
      dict of text supplies its own header and its fields become a tuple. */
  lemma TextRowKeepsItsFields(data: RowData, header: Option<seq<string>>, parsers: Callbacks, serializers: Callbacks)
    ensures var r := Build(Some(data), None, header, parsers, serializers);
            match data
            case Fields(values) => r == Ok(Row(values, header, parsers, serializers, false))
            case Items(pairs) =>
              (r.Err? <==> pairs == []) &&
              (r.Ok? ==> r.value.frozen && |r.value.fields| == |pairs| && r.value.header.Some? &&
                         |r.value.header.value| == |pairs| &&
                         forall k :: 0 <= k < |pairs| ==> r.value.header.value[k] == pairs[k].0 && r.value.fields[k] == pairs[k].1)
  {
  }

  /** A row built from native values stores, at every position i, the
      result of `_serialize(i, value_i)`: same length, same order, text only.
      It fails only when name-keyed serializers meet a missing header, and
      then only if there is a value to serialize. */
  lemma {:induction false} NativeRowStoresSerializedText(values: seq<string>, header: Option<seq<string>>,
                                                         parsers: Callbacks, serializers: Callbacks)
    ensures var r := Build(None, Some(Fields(values)), header, parsers, serializers);
            (r.Err? <==> serializers.ByName? && header.None? && |values| > 0) &&
            (r.Ok? ==> !r.value.frozen && r.value.header == header && |r.value.fields| == |values| &&
                       forall i :: 0 <= i < |values| ==> r.value.Serialize(i, values[i]) == Ok(r.value.fields[i]))
  {
    var native := Row(values, header, parsers, serializers, false);
    var texts := native.SerializePrefix(|values|);
    if texts.Ok? {
      var built := native.(fields := texts.value, frozen := false);
      forall i | 0 <= i < |values|
        ensures built.Serialize(i, values[i]) == Ok(built.fields[i])
      {
        assert built.Serialize(i, values[i]) == native.Serialize(i, values[i]);
      }
    }
  }

  /** A row built from a native dict takes its header from the dict's keys,
      in insertion order (the header argument is ignored), and stores at
      every position the value under that key passed through `_serialize`
      for that position; only an empty dict fails. */
  lemma {:induction false} NativeDictStoresSerializedText(pairs: seq<(string, string)>, header: Option<seq<string>>,
                                                          parsers: Callbacks, serializers: Callbacks)
    ensures var r := Build(None, Some(Items(pairs)), header, parsers, serializers);
            (r.Err? <==> pairs == []) &&
            (r.Err? ==> r.error == ValueError(UnpackMsg)) &&
            (r.Ok? ==> !r.value.frozen && r.value.header.Some? &&
                       |r.value.fields| == |r.value.header.value| == |pairs| &&
                       forall i :: 0 <= i < |pairs| ==>
                         r.value.header.value[i] == pairs[i].0 &&
                         r.value.Serialize(i, pairs[i].1) == Ok(r.value.fields[i]))
  {
    if pairs != [] {
      var native := Unpack(Items(pairs), header, parsers, serializers).value;
      var texts := native.SerializePrefix(|native.fields|);
      assert texts.Ok?;
      var built := native.(fields := texts.value, frozen := false);
      forall i | 0 <= i < |pairs|
        ensures built.Serialize(i, pairs[i].1) == Ok(built.fields[i])
      {
        assert native.fields[i] == pairs[i].1;
        assert built.Serialize(i, pairs[i].1) == native.Serialize(i, pairs[i].1);
      }
    }
  }

  /** Without serializers, a row built from native values stores exactly
      those values. */
  lemma PlainNativeRowKeepsItsValues(values: seq<string>, header: Option<seq<string>>, parsers: Callbacks)
    ensures Build(None, Some(Fields(values)), header, parsers, NoCallbacks)
              == Ok(Row(values, header, parsers, NoCallbacks, false))
  {
    NativeRowStoresSerializedText(values, header, parsers, NoCallbacks);
    var r := Build(None, Some(Fields(values)), header, parsers, NoCallbacks);
    forall i | 0 <= i < |values|
      ensures r.value.fields[i] == values[i]
    {
      SerializeResolution(r.value, i, values[i]);
    }
    assert r.value.fields == values;
    assert r.value.parsers == parsers && r.value.serializers == NoCallbacks;
  }

  // ---------------------------------------------------------------------
  // Parsing and serializing

  /** Which parser `_parse(i)` applies at a position 0 <= i < len(row): the
      list entry at i when the list is long enough, the dict entry under the
      column's name when there is one, otherwise none (the raw text). A
      name-keyed parser dict with no header raises TypeError. */
  lemma ParseResolution(row: Row, i: nat)
    requires i < |row.fields|
    ensures row.parsers.NoCallbacks? ==> row.Parse(i) == Ok(row.fields[i])
    ensures row.parsers.ByIndex? ==>
              row.Parse(i) == if i < |row.parsers.list| then Ok(row.parsers.list[i](row.fields[i])) else Ok(row.fields[i])
    ensures row.parsers.ByName? && row.header.Some? ==>
              var h := row.header.value;
              row.Parse(i) == if i < |h| && h[i] in row.parsers.dict then Ok(row.parsers.dict[h[i]](row.fields[i]))
                              else Ok(row.fields[i])
    ensures row.parsers.ByName? && row.header.None? ==> row.Parse(i) == Err(TypeError(NotSubscriptableMsg))
  {
  }

  /** A negative key reads the field counted from the end, but picks the list
      parser counted from the end of the PARSER list, which is a different
      column whenever that list is shorter than the row. */
  lemma ParseFromTheEnd(row: Row, i: int)
    requires -|row.fields| <= i < 0 && row.parsers.ByIndex? && -|row.parsers.list| <= i
    ensures row.Parse(i) == Ok(row.parsers.list[|row.parsers.list| + i](row.fields[|row.fields| + i]))
  {
  }

  /** The serializer `_serialize(i, data)` applies at a position i >= 0
      follows the same resolution, but a dict without a header is the
      ValueError of name-keyed access rather than a TypeError. */
  lemma SerializeResolution(row: Row, i: nat, data: string)
    ensures row.serializers.NoCallbacks? ==> row.Serialize(i, data) == Ok(data)
    ensures row.serializers.ByIndex? ==>
              row.Serialize(i, data) == if i < |row.serializers.list| then Ok(row.serializers.list[i](data)) else Ok(data)
    ensures row.serializers.ByName? && row.header.Some? ==>
              var h := row.header.value;
              row.Serialize(i, data) == if i < |h| && h[i] in row.serializers.dict then Ok(row.serializers.dict[h[i]](data))
                                        else Ok(data)
    ensures row.serializers.ByName? && row.header.None? ==> row.Serialize(i, data) == Err(ValueError(NoHeaderMsg))
  {
  }

  // ---------------------------------------------------------------------
  // Read views

  /** `list()` holds one parsed value per field, in field order; it fails
      only for name-keyed parsers without a header, and only on a non-empty row. */
  lemma AsListIsEveryField(row: Row)
    ensures var r := row.AsList();
            (r.Err? <==> row.parsers.ByName? && row.header.None? && |row.fields| > 0) &&
            (r.Ok? ==> |r.value| == row.Length() &&
                       forall i :: 0 <= i < |row.fields| ==> row.Parse(i) == Ok(r.value[i]))
  {
    FullSliceIsEveryIndex(|row.fields|);
    var positions := seq(|row.fields|, k => k);
    if row.parsers.ByName? && row.header.None? && |row.fields| > 0 {
      assert positions[0] == 0 && row.Parse(positions[0]).Err?;
    }
  }

  /** `row[a:b:c]` holds the parsed values at exactly the positions the
      slice selects, in the slice's order; a zero step raises ValueError. */
  lemma SliceIsParsedPositions(row: Row, start: Option<int>, stop: Option<int>, step: Option<int>)
    requires !(row.parsers.ByName? && row.header.None?)
    ensures step == Some(0) ==> row.Get(Slice(start, stop, step)) == Err(ValueError(ZeroStepMsg))
    ensures step != Some(0) ==>
              var positions := SliceIndices(start, stop, step, |row.fields|).value;
              var r := row.Get(Slice(start, stop, step));
              r.Ok? && r.value.Many? && |r.value.values| == |positions| &&
              forall k :: 0 <= k < |positions| ==> row.Parse(positions[k]) == Ok(r.value.values[k])
  {
  }

  /** Named access needs a header: without one, `dict()`, `row[name]`,
      `row[name] = v` and a name-keyed `_serialize` raise ValueError, while a
      name-keyed `_parse` raises TypeError. */
  lemma NamedAccessNeedsHeader(row: Row, name: string, value: string, i: int)
    requires row.header.None?
    ensures row.AsDict() == Err(ValueError(NoHeaderMsg))
    ensures row.Get(Name(name)) == Err(ValueError(NoHeaderMsg))
    ensures row.Set(Name(name), value) == Err(ValueError(NoHeaderMsg))
    ensures row.serializers.ByName? ==> row.Serialize(i, value) == Err(ValueError(NoHeaderMsg))
    ensures row.parsers.ByName? && PyIndex(i, |row.fields|).Some? ==> row.Parse(i) == Err(TypeError(NotSubscriptableMsg))
  {
  }

  /** `row[name]` is `row[header_dict[name]]`. */
  lemma NamedGetIsPositionalGet(row: Row, name: string)
    requires row.header.Some? && name in HeaderIndex(row.header.value)
    ensures row.Get(Name(name)) == row.Get(Index(HeaderIndex(row.header.value)[name]))
  {
  }

  /** With a header whose names are distinct, the name at position j reads
      the same value as the index j. */
  lemma DistinctNamesReadTheirPosition(row: Row, j: nat)
    requires row.header.Some? && j < |row.header.value|
    requires forall a, b :: 0 <= a < b < |row.header.value| ==> row.header.value[a] != row.header.value[b]
    ensures row.Get(Name(row.header.value[j])) == row.Get(Index(j))
  {
    var h := row.header.value;
    var m := HeaderIndex(h);
    assert h[j] in h;
    assert m[h[j]] == j;
  }

  /** A repeated column name resolves to its LAST position. */
  lemma RepeatedNameResolvesToLastPosition()
    ensures HeaderIndex(["id", "name", "id"]) == map["id" := 2, "name" := 1]
  {
    assert ["id", "name", "id"][..2] == ["id", "name"];
    assert ["id", "name"][..1] == ["id"];
    assert ["id"][..0] == [];
  }

  /** A row with as many fields as header names: `dict()` has exactly the
      header's names as keys, and each maps to what `row[name]` returns. */
  lemma AsDictAgreesWithNamedGet(row: Row)
    requires row.header.Some? && |row.header.value| == |row.fields|
    ensures row.AsDict().Ok?
    ensures forall name :: name in row.AsDict().value <==> name in row.header.value
    ensures forall name :: name in row.AsDict().value ==> row.Get(Name(name)) == Ok(One(row.AsDict().value[name]))
  {
    assert row.header.value[..|row.fields|] == row.header.value;
  }

  /** `dict()` has a key for the names of the first len(row) columns and no
      other; a row with more fields than names raises IndexError. */
  lemma AsDictKeys(row: Row)
    requires row.header.Some?
    ensures row.AsDict().Err? <==> |row.fields| > |row.header.value|
    ensures row.AsDict().Ok? ==> forall name :: name in row.AsDict().value <==>
                                   exists j :: 0 <= j < |row.fields| && row.header.value[j] == name
  {
    if |row.fields| <= |row.header.value| {
      var h := row.header.value[..|row.fields|];
      forall name
        ensures name in h <==> exists j :: 0 <= j < |row.fields| && row.header.value[j] == name
      {
        if name in h {
          var j :| 0 <= j < |h| && h[j] == name;
          assert row.header.value[j] == name;
        }
        if exists j :: 0 <= j < |row.fields| && row.header.value[j] == name {
          var j :| 0 <= j < |row.fields| && row.header.value[j] == name;
          assert h[j] == name;
        }
      }
    }
  }

  /** A ragged row with fewer fields than header names: the positions past
      its last field raise IndexError, by index and by name alike. */
  lemma RaggedRowRaisesPastLastField(row: Row, i: nat)
    requires row.header.Some? && |row.fields| <= i < |row.header.value|
    ensures row.Get(Index(i)) == Err(IndexError)
    ensures HeaderIndex(row.header.value)[row.header.value[i]] >= i
    ensures row.Get(Name(row.header.value[i])) == Err(IndexError)
  {
    var h := row.header.value;
    assert h[i] in h;
  }

  // ---------------------------------------------------------------------
  // Assignment

  /** Setting a column by name serializes the value for that column's
      position and replaces that one field; length, header, callbacks and
      every other field stay as they were. */
  lemma SetByNameTouchesOneField(row: Row, name: string, value: string)
    requires row.header.Some? && name in HeaderIndex(row.header.value)
    ensures var pos := HeaderIndex(row.header.value)[name];
            var r := row.Set(Name(name), value);
            (r.Ok? <==> !row.frozen && pos < |row.fields|) &&
            (r.Ok? ==> |r.value.fields| == |row.fields| &&
                       row.Serialize(pos, value) == Ok(r.value.fields[pos]) &&
                       forall j :: 0 <= j < |row.fields| && j != pos ==> r.value.fields[j] == row.fields[j])
  {
  }

  /** Setting a position with a serializer and then reading it with the
      inverse parser gives the value back; no other position changes. */
  lemma SetThenGetRoundTrip(row: Row, i: nat, value: string)
    requires !row.frozen && i < |row.fields|
    requires row.parsers.ByIndex? && row.serializers.ByIndex?
    requires i < |row.parsers.list| && i < |row.serializers.list|
    requires row.parsers.list[i](row.serializers.list[i](value)) == value
    ensures row.Set(Index(i), value).Ok?
    ensures row.Set(Index(i), value).value.Get(Index(i)) == Ok(One(value))
    ensures forall j :: 0 <= j < |row.fields| && j != i ==>
              row.Set(Index(i), value).value.Get(Index(j)) == row.Get(Index(j))
  {
  }

  /** Positional parsers `ps` undo positional serializers `ss` on `values`:
      both lists reach every position, and each parser inverts its
      column's serializer on that column's value. */
  predicate Inverts(ps: seq<Callback>, ss: seq<Callback>, values: seq<string>)
  {
    forall i :: 0 <= i < |values| ==> i < |ps| && i < |ss| && ps[i](ss[i](values[i])) == values[i]
  }

  /** A row built from native values with positional serializers, read as a
      list through inverse positional parsers, gives back the values. */
  lemma NativeRowReadsBack(values: seq<string>, header: Option<seq<string>>, ps: seq<Callback>, ss: seq<Callback>)
    requires Inverts(ps, ss, values)
    ensures var b := Build(None, Some(Fields(values)), header, ByIndex(ps), ByIndex(ss));
            b.Ok? && b.value == Row(b.value.fields, header, ByIndex(ps), ByIndex(ss), false) &&
            b.value.AsList() == Ok(values)
  {
    NativeRowStoresSerializedText(values, header, ByIndex(ps), ByIndex(ss));
    var b := Build(None, Some(Fields(values)), header, ByIndex(ps), ByIndex(ss)).value;
    SerializedRowParsesBack(b, values, ps, ss);
  }

  /** A row holding, at each position, the serialization of a value reads,
      as a list through parsers that undo the serializers, those values. */
  lemma SerializedRowParsesBack(b: Row, values: seq<string>, ps: seq<Callback>, ss: seq<Callback>)
    requires b.parsers == ByIndex(ps) && b.serializers == ByIndex(ss) && Inverts(ps, ss, values)
    requires |b.fields| == |values|
    requires forall i :: 0 <= i < |values| ==> b.Serialize(i, values[i]) == Ok(b.fields[i])
    ensures b.AsList() == Ok(values)
  {
    AsListIsEveryField(b);
    var back := b.AsList().value;
    forall i | 0 <= i < |values|
      ensures back[i] == values[i]
    {
      SerializeResolution(b, i, values[i]);
      assert b.fields[i] == ss[i](values[i]);
      ParseResolution(b, i);
      assert b.Parse(i) == Ok(ps[i](b.fields[i]));
    }
    assert back == values;
  }

  /** Setting a column whose name has both a serializer and a parser that
      undoes it, keyed by name, and reading it back gives the value; no other
      position reads differently. */
  lemma SetThenGetByName(row: Row, i: nat, value: string)
    requires !row.frozen && i < |row.fields|
    requires row.parsers.ByName? && row.serializers.ByName? && row.header.Some?
    requires var h := row.header.value;
             i < |h| && h[i] in row.parsers.dict && h[i] in row.serializers.dict &&
             row.parsers.dict[h[i]](row.serializers.dict[h[i]](value)) == value
    ensures row.Set(Index(i), value).Ok?
    ensures row.Set(Index(i), value).value.Get(Index(i)) == Ok(One(value))
    ensures forall j :: 0 <= j < |row.fields| && j != i ==>
              row.Set(Index(i), value).value.Get(Index(j)) == row.Get(Index(j))
  {
  }

  /** The value `v` at position `i` under header `h`, serialized under its
      column's name when that name has a serializer in `sd` and then parsed
      the same way when it has a parser in `pd`; positions past the header
      use neither. */
  function ReadBackByName(h: seq<string>, pd: map<string, Callback>, sd: map<string, Callback>,
                          i: nat, v: string): string
  {
    var stored := if i < |h| && h[i] in sd then sd[h[i]](v) else v;
    if i < |h| && h[i] in pd then pd[h[i]](stored) else stored
  }

  /** Every column of `values` reads back as itself. */
  predicate ReadsBackByName(h: seq<string>, pd: map<string, Callback>, sd: map<string, Callback>,
                            values: seq<string>)
  {
    forall i :: 0 <= i < |values| ==> ReadBackByName(h, pd, sd, i, values[i]) == values[i]
  }

  /** A row built from native values with name-keyed serializers is a list
      row with header `h`, and its `list()` through name-keyed parsers gives
      back the values exactly when every column reads back. */
  lemma NativeRowReadsBackByName(values: seq<string>, h: seq<string>, pd: map<string, Callback>,
                                 sd: map<string, Callback>)
    ensures var b := Build(None, Some(Fields(values)), Some(h), ByName(pd), ByName(sd));
            b.Ok? && b.value == Row(b.value.fields, Some(h), ByName(pd), ByName(sd), false) &&
            (b.value.AsList() == Ok(values) <==> ReadsBackByName(h, pd, sd, values))
  {
    NativeRowStoresSerializedText(values, Some(h), ByName(pd), ByName(sd));
    var b := Build(None, Some(Fields(values)), Some(h), ByName(pd), ByName(sd)).value;
    SerializedRowParsesBackByName(b, values, h, pd, sd);
  }

  /** A row holding, at each position, the name-keyed serialization of a
      value reads, as a list through name-keyed parsers, each value's
      read-back; so it reads the values exactly when each column reads back. */
  lemma SerializedRowParsesBackByName(b: Row, values: seq<string>, h: seq<string>, pd: map<string, Callback>,
                                      sd: map<string, Callback>)
    requires b.header == Some(h) && b.parsers == ByName(pd) && b.serializers == ByName(sd)
    requires |b.fields| == |values|
    requires forall i :: 0 <= i < |values| ==> b.Serialize(i, values[i]) == Ok(b.fields[i])
    ensures b.AsList().Ok? && |b.AsList().value| == |values|
    ensures forall i :: 0 <= i < |values| ==> b.AsList().value[i] == ReadBackByName(h, pd, sd, i, values[i])
    ensures b.AsList() == Ok(values) <==> ReadsBackByName(h, pd, sd, values)
  {
    AsListIsEveryField(b);
    var back := b.AsList().value;
    forall i | 0 <= i < |values|
      ensures back[i] == ReadBackByName(h, pd, sd, i, values[i])
    {
      SerializeResolution(b, i, values[i]);
      ParseResolution(b, i);
    }
    if ReadsBackByName(h, pd, sd, values) {
      assert back == values;
    }
  }

  /** As written, `row[i] = v` with an integer key always raises TypeError
      (the value never reaches `_serialize`), even where the intended
      assignment succeeds; named keys are unaffected. */
  lemma SetByIndexAsWrittenAlwaysFails(row: Row, i: int, value: string)
    ensures row.SetAsWritten(Index(i), value) == Err(TypeError(MissingDataMsg))
    ensures !row.frozen && 0 <= i < |row.fields| && !(row.serializers.ByName? && row.header.None?) ==>
              row.Set(Index(i), value).Ok?
    ensures forall name :: row.SetAsWritten(Name(name), value) == row.Set(Name(name), value)
  {
  }

  // ---------------------------------------------------------------------
  // The row object

  /** A `CommaRow` object: its fields are updated in place by `SetItem`,
      everything else is fixed when it is built. */
  class CommaRow {
    var row: seq<string>
    const header: Option<seq<string>>
    const parsers: Callbacks
    const serializers: Callbacks
    const frozen: bool

    /** The row's current value. */
    function State(): Row
      reads this
    {
      Row(row, header, parsers, serializers, frozen)
    }

    constructor FromState(s: Row)
      ensures State() == s
    {
      row := s.fields;
      header := s.header;
      parsers := s.parsers;
      serializers := s.serializers;
      frozen := s.frozen;
    }

    /** `CommaRow(text_row=..., native_row=..., header=..., parsers=..., serializers=...)` */
    static method New(textRow: Option<RowData>, nativeRow: Option<RowData>, header: Option<seq<string>>,
                      parsers: Callbacks, serializers: Callbacks) returns (r: Result<CommaRow>)
      ensures var b := Build(textRow, nativeRow, header, parsers, serializers);
              (b.Err? ==> r == Err(b.error)) &&
              (b.Ok? ==> r.Ok? && fresh(r.value) && r.value.State() == b.value)
    {
      var b := Build(textRow, nativeRow, header, parsers, serializers);
      if b.Err? {
        r := Err(b.error);
      } else {
        var made := new CommaRow.FromState(b.value);
        r := Ok(made);
      }
    }

    /** `len(row)` */
    method Length() returns (n: nat)
      ensures n == |State().fields|
    {
      n := |row|;
    }

    /** `row[key]` */
    method GetItem(key: Key) returns (r: Result<Item>)
      ensures r == State().Get(key)
    {
      r := State().Get(key);
    }

    /** `row.list()` */
    method List() returns (r: Result<seq<string>>)
      ensures r == State().AsList()
    {
      r := State().AsList();
    }

    /** `row.dict()` */
    method Dict() returns (r: Result<map<string, string>>)
      ensures r == State().AsDict()
    {
      r := State().AsDict();
    }

    /** `row[key] = value`, which overwrites one field in place. */
    method SetItem(key: Key, value: string) returns (r: Result<()>)
      modifies this`row
      ensures var s := old(State()).Set(key, value);
              (s.Err? ==> r == Err(s.error) && row == old(row)) &&
              (s.Ok? ==> r == Ok(()) && State() == s.value)
    {
      match State().Set(key, value)
      case Err(e) =>
        r := Err(e);
      case Ok(s) =>
        row := s.fields;
        r := Ok(());
    }
  }
}
