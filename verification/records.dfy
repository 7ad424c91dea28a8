/** The exportable record: an ordered key/value bag with dynamically typed
    scalar values, the row projection onto `selectedFields`, and the
    inclusive date-range filter of `lib/export.ts`. */
module Records {
  import opened Wrappers
  import Text
  import opened Seqs

  /** A scalar cell value. Numbers are integral in this model. */
  datatype Value = Str(s: string) | Num(n: int) | Bool(b: bool) | Null | Undefined

  /** An object in its own key order. Keys are distinct in a well-formed record. */
  type Record = seq<(string, Value)>

  function Keys(r: Record): (ks: seq<string>)
    ensures |ks| == |r|
    ensures forall i :: 0 <= i < |r| ==> ks[i] == r[i].0
  {
    seq(|r|, i requires 0 <= i < |r| => r[i].0)
  }

  predicate WellFormed(r: Record) {
    forall i, j :: 0 <= i < j < |r| ==> r[i].0 != r[j].0
  }

  /** `row[key]`: a missing key reads as `undefined`. */
  function Lookup(r: Record, key: string): Value
    decreases |r|
  {
    if |r| == 0 then Undefined
    else if r[0].0 == key then r[0].1
    else Lookup(r[1..], key)
  }

  lemma {:induction false} LookupAt(r: Record, i: int)
    requires WellFormed(r) && 0 <= i < |r|
    ensures Lookup(r, r[i].0) == r[i].1
    decreases |r|
  {
    if i > 0 {
      LookupAt(r[1..], i - 1);
    }
  }

  lemma {:induction false} LookupMissing(r: Record, key: string)
    requires key !in Keys(r)
    ensures Lookup(r, key) == Undefined
    decreases |r|
  {
    if |r| > 0 {
      assert Keys(r[1..]) == Keys(r)[1..];
      LookupMissing(r[1..], key);
    }
  }

  /** JavaScript truthiness: "", 0, false, null and undefined are falsy. */
  predicate Truthy(v: Value) {
    match v
    case Str(s) => s != ""
    case Num(n) => n != 0
    case Bool(b) => b
    case Null => false
    case Undefined => false
  }

  /** `String(v)`. */
  function ToText(v: Value): string {
    match v
    case Str(s) => s
    case Num(n) => Text.IntToString(n)
    case Bool(b) => if b then "true" else "false"
    case Null => "null"
    case Undefined => "undefined"
  }

  /** `String(v || "")`, the cell text of the spreadsheet widths and the PDF table. */
  function OrEmptyText(v: Value): (t: string)
    ensures !Truthy(v) ==> t == ""
    ensures Truthy(v) ==> t == ToText(v)
  {
    if Truthy(v) then ToText(v) else ""
  }

  /** `obj[key] = v`: an existing key keeps its position, a new key goes last. */
  function Assign(r: Record, key: string, v: Value): (r': Record)
    decreases |r|
  {
    if |r| == 0 then [(key, v)]
    else if r[0].0 == key then [(key, v)] + r[1..]
    else [r[0]] + Assign(r[1..], key, v)
  }

  /** The `selectedFields.forEach` loop of every encoder, accumulating into `acc`. */
  function ProjectInto(row: Record, fields: seq<string>, acc: Record): Record
    decreases |fields|
  {
    if |fields| == 0 then acc
    else
      var v := Lookup(row, fields[0]);
      ProjectInto(row, fields[1..], if v != Undefined then Assign(acc, fields[0], v) else acc)
  }

  function Project(row: Record, fields: seq<string>): Record {
    ProjectInto(row, fields, [])
  }

  /** Independent description of the projected keys: the selected fields that
      are defined on the row, each at its first occurrence in `fields`. */
  function Chosen(row: Record, fields: seq<string>, seen: set<string>): seq<string>
    decreases |fields|
  {
    if |fields| == 0 then []
    else if fields[0] !in seen && Lookup(row, fields[0]) != Undefined then
      [fields[0]] + Chosen(row, fields[1..], seen + {fields[0]})
    else Chosen(row, fields[1..], seen)
  }

  /** `processedData = selectedFields ? data.map(project) : data`. */
  function ProjectAll(data: seq<Record>, selected: Option<seq<string>>): (out: seq<Record>)
    ensures |out| == |data|
    ensures selected.None? ==> out == data
    ensures selected.Some? ==> forall i :: 0 <= i < |data| ==> out[i] == Project(data[i], selected.value)
  {
    match selected
    case None => data
    case Some(fields) => seq(|data|, i requires 0 <= i < |data| => Project(data[i], fields))
  }

  /** Pairs each chosen key with its value on the row. */
  function WithValues(row: Record, ks: seq<string>): (r: Record)
    ensures Keys(r) == ks
    ensures forall i :: 0 <= i < |r| ==> r[i].1 == Lookup(row, ks[i])
  {
    seq(|ks|, i requires 0 <= i < |ks| => (ks[i], Lookup(row, ks[i])))
  }

  predicate Faithful(row: Record, acc: Record) {
    forall i :: 0 <= i < |acc| ==> acc[i].1 == Lookup(row, acc[i].0)
  }

  /** Assigning a key already present with the same value changes nothing. */
  lemma {:induction false} AssignPresent(acc: Record, key: string, v: Value)
    requires key in Keys(acc)
    requires forall i :: 0 <= i < |acc| && acc[i].0 == key ==> acc[i].1 == v
    ensures Assign(acc, key, v) == acc
    decreases |acc|
  {
    if acc[0].0 != key {
      assert Keys(acc[1..]) == Keys(acc)[1..];
      AssignPresent(acc[1..], key, v);
      assert [acc[0]] + acc[1..] == acc;
    } else {
      assert [(key, v)] + acc[1..] == acc;
    }
  }

  /** Assigning a new key appends it. */
  lemma {:induction false} AssignAbsent(acc: Record, key: string, v: Value)
    requires key !in Keys(acc)
    ensures Assign(acc, key, v) == acc + [(key, v)]
    decreases |acc|
  {
    if |acc| > 0 {
      assert Keys(acc[1..]) == Keys(acc)[1..];
      AssignAbsent(acc[1..], key, v);
      assert [acc[0]] + (acc[1..] + [(key, v)]) == acc + [(key, v)];
    }
  }

  /** The assignment loop builds exactly the independent description. */
  lemma {:induction false} ProjectIntoChosen(row: Record, fields: seq<string>, acc: Record, seen: set<string>)
    requires Faithful(row, acc)
    requires forall k :: k in seen <==> k in Keys(acc)
    ensures ProjectInto(row, fields, acc) == acc + WithValues(row, Chosen(row, fields, seen))
    decreases |fields|
  {
    if |fields| == 0 {
      assert WithValues(row, []) == [];
    } else {
      var f := fields[0];
      var v := Lookup(row, f);
      if v == Undefined {
        ProjectIntoChosen(row, fields[1..], acc, seen);
      } else if f in seen {
        AssignPresent(acc, f, v);
        ProjectIntoChosen(row, fields[1..], acc, seen);
      } else {
        StepAbsent(row, fields, acc, seen);
      }
    }
  }

  lemma StepAbsent(row: Record, fields: seq<string>, acc: Record, seen: set<string>)
    requires |fields| > 0
    requires Faithful(row, acc)
    requires forall k :: k in seen <==> k in Keys(acc)
    requires Lookup(row, fields[0]) != Undefined && fields[0] !in seen
    ensures ProjectInto(row, fields, acc) == acc + WithValues(row, Chosen(row, fields, seen))
    decreases |fields|, 1
  {
    var f := fields[0];
    var v := Lookup(row, f);
    var rest := Chosen(row, fields[1..], seen + {f});
    StepAbsentTail(row, fields, acc, seen);
    ChosenCons(row, fields, seen);
    AppendAssoc(acc, (f, v), WithValues(row, rest));
  }

  lemma AppendAssoc(a: Record, x: (string, Value), w: Record)
    ensures (a + [x]) + w == a + ([x] + w)
  {
  }

  /** A new defined field is appended, and the loop goes on from there. */
  lemma StepAbsentTail(row: Record, fields: seq<string>, acc: Record, seen: set<string>)
    requires |fields| > 0
    requires Faithful(row, acc)
    requires forall k :: k in seen <==> k in Keys(acc)
    requires Lookup(row, fields[0]) != Undefined && fields[0] !in seen
    ensures var f := fields[0];
      ProjectInto(row, fields, acc)
        == (acc + [(f, Lookup(row, f))]) + WithValues(row, Chosen(row, fields[1..], seen + {f}))
    decreases |fields|, 0
  {
    var f := fields[0];
    var v := Lookup(row, f);
    AssignAbsent(acc, f, v);
    FaithfulAppend(row, acc, f);
    KeysAppend(acc, f, v, seen);
    ProjectIntoChosen(row, fields[1..], acc + [(f, v)], seen + {f});
  }

  lemma ChosenCons(row: Record, fields: seq<string>, seen: set<string>)
    requires |fields| > 0
    requires Lookup(row, fields[0]) != Undefined && fields[0] !in seen
    ensures var f := fields[0];
      WithValues(row, Chosen(row, fields, seen))
        == [(f, Lookup(row, f))] + WithValues(row, Chosen(row, fields[1..], seen + {f}))
  {
    var f := fields[0];
    WithValuesCons(row, f, Chosen(row, fields[1..], seen + {f}));
  }

  lemma KeysAppend(acc: Record, f: string, v: Value, seen: set<string>)
    requires forall k :: k in seen <==> k in Keys(acc)
    ensures forall k :: k in seen + {f} <==> k in Keys(acc + [(f, v)])
  {
    assert Keys(acc + [(f, v)]) == Keys(acc) + [f];
  }

  lemma FaithfulAppend(row: Record, acc: Record, f: string)
    requires Faithful(row, acc)
    ensures Faithful(row, acc + [(f, Lookup(row, f))])
  {
  }

  lemma WithValuesCons(row: Record, f: string, rest: seq<string>)
    ensures WithValues(row, [f] + rest) == [(f, Lookup(row, f))] + WithValues(row, rest)
  {
  }

  lemma ProjectIsChosen(row: Record, fields: seq<string>)
    ensures Project(row, fields) == WithValues(row, Chosen(row, fields, {}))
  {
    ProjectIntoChosen(row, fields, [], {});
  }

  /** Facts about the independent description: no key twice, no key from
      `seen`, and exactly the defined selected fields. */
  lemma {:induction false} ChosenFacts(row: Record, fields: seq<string>, seen: set<string>)
    ensures var c := Chosen(row, fields, seen);
      && (forall i, j :: 0 <= i < j < |c| ==> c[i] != c[j])
      && (forall i :: 0 <= i < |c| ==> c[i] !in seen)
      && (forall k :: k in c <==> k in fields && k !in seen && Lookup(row, k) != Undefined)
    decreases |fields|
  {
    if |fields| > 0 {
      ChosenFacts(row, fields[1..], seen + {fields[0]});
      ChosenFacts(row, fields[1..], seen);
    }
  }

  /** Without repeated fields the projection keeps `fields` order exactly. */
  lemma {:induction false} ChosenDistinct(row: Record, fields: seq<string>, seen: set<string>)
    requires forall i, j :: 0 <= i < j < |fields| ==> fields[i] != fields[j]
    requires forall i :: 0 <= i < |fields| ==> fields[i] !in seen
    ensures Chosen(row, fields, seen) == DefinedFields(row, fields)
    decreases |fields|
  {
    if |fields| > 0 {
      ChosenDistinct(row, fields[1..], seen + {fields[0]});
      ChosenDistinct(row, fields[1..], seen);
    }
  }

  /** `fields.filter(f => row[f] !== undefined)`. */
  function DefinedFields(row: Record, fields: seq<string>): seq<string>
    decreases |fields|
  {
    if |fields| == 0 then []
    else if Lookup(row, fields[0]) != Undefined then [fields[0]] + DefinedFields(row, fields[1..])
    else DefinedFields(row, fields[1..])
  }

  /** Projection: the result holds exactly the selected keys whose value is not
      `undefined`, each once, with the row's value. */
  lemma ProjectContents(row: Record, fields: seq<string>)
    ensures var p := Project(row, fields);
      && WellFormed(p)
      && (forall k :: k in Keys(p) <==> k in fields && Lookup(row, k) != Undefined)
      && (forall i :: 0 <= i < |p| ==> p[i].1 == Lookup(row, p[i].0) && p[i].1 != Undefined)
  {
    ProjectIsChosen(row, fields);
    ChosenFacts(row, fields, {});
    var p := Project(row, fields);
    var c := Chosen(row, fields, {});
    assert forall i :: 0 <= i < |p| ==> p[i].0 == c[i];
  }

  /** Projection onto distinct fields keeps `fields` order. */
  lemma ProjectOrder(row: Record, fields: seq<string>)
    requires forall i, j :: 0 <= i < j < |fields| ==> fields[i] != fields[j]
    ensures Keys(Project(row, fields)) == DefinedFields(row, fields)
  {
    ProjectIsChosen(row, fields);
    ChosenDistinct(row, fields, {});
  }

  /** Projecting a row with no `undefined` value onto its own keys gives it back. */
  lemma ProjectOwnKeys(row: Record)
    requires WellFormed(row)
    requires forall i :: 0 <= i < |row| ==> row[i].1 != Undefined
    ensures Project(row, Keys(row)) == row
  {
    ProjectOrder(row, Keys(row));
    AllDefined(row, Keys(row), 0);
    var p := Project(row, Keys(row));
    ProjectContents(row, Keys(row));
    forall i | 0 <= i < |row|
      ensures p[i] == row[i]
    {
      LookupAt(row, i);
    }
  }

  lemma {:induction false} AllDefined(row: Record, ks: seq<string>, from: nat)
    requires WellFormed(row) && from <= |row|
    requires forall i :: 0 <= i < |row| ==> row[i].1 != Undefined
    requires ks == Keys(row)
    ensures DefinedFields(row, ks[from..]) == ks[from..]
    decreases |row| - from
  {
    if from < |row| {
      LookupAt(row, from);
      AllDefined(row, ks, from + 1);
      assert ks[from..][1..] == ks[from + 1..];
      assert [ks[from]] + ks[from + 1..] == ks[from..];
    }
  }

  /** The inclusive date range; a bound that did not parse is `None`. */
  datatype DateRange = DateRange(start: Option<int>, end: Option<int>)

  /** `row.created_at || row.date`; neither truthy gives the invalid `new Date("")`. */
  function DateSource(row: Record): Option<Value> {
    var c := Lookup(row, "created_at");
    if Truthy(c) then Some(c)
    else
      var d := Lookup(row, "date");
      if Truthy(d) then Some(d) else None
  }

  /** The row's date, read through the host's date parser. */
  function RowDate(row: Record, parse: Value -> Option<int>): Option<int> {
    match DateSource(row)
    case None => None
    case Some(v) => parse(v)
  }

  /** `rowDate >= start && rowDate <= end`; any comparison with an invalid date is false. */
  predicate InRange(d: Option<int>, range: DateRange) {
    && d.Some? && range.start.Some? && range.end.Some?
    && range.start.value <= d.value <= range.end.value
  }

  predicate Kept(row: Record, range: DateRange, parse: Value -> Option<int>) {
    InRange(RowDate(row, parse), range)
  }

  /** `data.filter(...)` on the row's date. */
  function FilterByDate(rows: seq<Record>, range: DateRange, parse: Value -> Option<int>): (out: seq<Record>)
    ensures |out| <= |rows|
    ensures forall i :: 0 <= i < |out| ==> Kept(out[i], range, parse)
    ensures forall x :: multiset(out)[x] == if Kept(x, range, parse) then multiset(rows)[x] else 0
    decreases |rows|
  {
    if |rows| == 0 then []
    else
      var rest := FilterByDate(rows[1..], range, parse);
      assert rows == [rows[0]] + rows[1..];
      if Kept(rows[0], range, parse) then [rows[0]] + rest else rest
  }

  /** The filter keeps the order of the surviving rows. */
  lemma {:induction false} FilterOrder(rows: seq<Record>, range: DateRange, parse: Value -> Option<int>)
    ensures IsSubsequence(FilterByDate(rows, range, parse), rows)
    decreases |rows|
  {
    if |rows| > 0 {
      FilterOrder(rows[1..], range, parse);
      var rest := FilterByDate(rows[1..], range, parse);
      if !Kept(rows[0], range, parse) && |rest| > 0 {
      }
    }
  }

  /** Number of rows whose date lies in the range. */
  function CountInRange(rows: seq<Record>, range: DateRange, parse: Value -> Option<int>): nat
    decreases |rows|
  {
    if |rows| == 0 then 0
    else (if Kept(rows[0], range, parse) then 1 else 0) + CountInRange(rows[1..], range, parse)
  }

  /** The filter keeps exactly the rows the count counts. */
  lemma {:induction false} FilterCount(rows: seq<Record>, range: DateRange, parse: Value -> Option<int>)
    ensures |FilterByDate(rows, range, parse)| == CountInRange(rows, range, parse)
    decreases |rows|
  {
    if |rows| > 0 {
      FilterCount(rows[1..], range, parse);
    }
  }

  /** A row dated exactly on either bound survives; one a unit outside does not. */
  lemma FilterBoundaries(row: Record, range: DateRange, parse: Value -> Option<int>)
    requires range.start.Some? && range.end.Some? && range.start.value <= range.end.value
    ensures RowDate(row, parse) == range.start ==> FilterByDate([row], range, parse) == [row]
    ensures RowDate(row, parse) == range.end ==> FilterByDate([row], range, parse) == [row]
    ensures RowDate(row, parse) == Some(range.start.value - 1) ==> FilterByDate([row], range, parse) == []
    ensures RowDate(row, parse) == Some(range.end.value + 1) ==> FilterByDate([row], range, parse) == []
    ensures RowDate(row, parse).None? ==> FilterByDate([row], range, parse) == []
  {
    assert [row][1..] == [];
  }
}
