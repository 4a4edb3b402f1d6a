/**
 * The row logic of the risk table in src/App.jsx. Rows are added from the
 * risk-analysis reply (`handleOk`), deleted (`handleDelete`), edited
 * (`handleSave`) and given treatments from the recommendation replies
 * (`handleRecommendTreatment`). The replies of the HTTP service are inputs.
 */
module RiskTable {
  import opened Optional
  import opened Decimal
  import opened Text

  /** One row of the table; `key` is the decimal numeral of a counter value. */
  datatype Row = Row(key: string, activo: string, riesgo: string, impacto: string, tratamiento: string)

  /** One risk of the analysis reply. */
  datatype Item = Item(riesgo: string, impacto: string)

  /** The reply to one treatment request: a failed request, or the `tratamiento` it returned ("" when it had none). */
  datatype TreatmentReply = RequestFailed | Answered(tratamiento: string)

  /** The message shown after a handler. */
  datatype Notice =
    | MissingAsset                        // "Por favor ingresa un nombre de activo"
    | AnalysisFailed                      // "No se pudo analizar riesgos. ..."
    | Evaluated(activo: string, risks: nat) // `Activo "${activo}" evaluado (${n} riesgos)`
    | NothingToRecommend                  // "No hay riesgos para recomendar tratamientos"
    | TreatmentsRecommended               // "Tratamientos recomendados"

  /** At most this many analysed risks become rows. */
  const MaxGenerated: nat := 5
  /** The treatment of a row that has none yet. */
  const Placeholder: string := "-"

  /** The keys of the rows, in order. */
  function Keys(rows: seq<Row>): (ks: seq<string>)
    ensures |ks| == |rows|
    ensures forall i :: 0 <= i < |rows| ==> ks[i] == rows[i].key
  {
    if rows == [] then [] else [rows[0].key] + Keys(rows[1..])
  }

  /** No two of the keys are equal. */
  ghost predicate Unique(ks: seq<string>) {
    forall i, j :: 0 <= i < j < |ks| ==> ks[i] != ks[j]
  }

  /** Every key denotes a number below `count`. */
  ghost predicate Below(ks: seq<string>, count: nat) {
    forall i :: 0 <= i < |ks| ==> Value(ks[i]) < count
  }

  /** No two rows share a key. */
  ghost predicate KeysUnique(rows: seq<Row>) {
    Unique(Keys(rows))
  }

  /** Every key denotes a counter value already used, so no key is that of a later row. */
  ghost predicate KeysBelow(rows: seq<Row>, count: nat) {
    Below(Keys(rows), count)
  }

  /** What the handlers keep true of the table: the counter is positive, keys are unique and below it. */
  ghost predicate TableInvariant(rows: seq<Row>, count: nat) {
    count >= 1 && KeysUnique(rows) && KeysBelow(rows, count)
  }

  // ---- handleDelete ----

  /** `rows.filter(item => item.key !== key)`. */
  function Delete(rows: seq<Row>, key: string): (r: seq<Row>)
    ensures |r| <= |rows|
    ensures forall i :: 0 <= i < |r| ==> r[i].key != key
    ensures forall x :: x in r <==> x in rows && x.key != key
    ensures (forall i :: 0 <= i < |rows| ==> rows[i].key != key) ==> r == rows
  {
    if rows == [] then []
    else (if rows[0].key != key then [rows[0]] else []) + Delete(rows[1..], key)
  }

  /** Deleting keeps the order: it works piecewise on any split of the table. */
  lemma {:induction false} DeleteAppend(a: seq<Row>, b: seq<Row>, key: string)
    ensures Delete(a + b, key) == Delete(a, key) + Delete(b, key)
  {
    if a == [] {
      assert a + b == b;
    } else {
      assert (a + b)[1..] == a[1..] + b;
      DeleteAppend(a[1..], b, key);
    }
  }

  lemma UniqueCons(x: string, b: seq<string>)
    ensures Unique([x] + b) <==> Unique(b) && x !in b
  {
    var a := [x] + b;
    if Unique(a) {
      forall i, j | 0 <= i < j < |b| ensures b[i] != b[j] {
        assert a[i + 1] == b[i] && a[j + 1] == b[j];
      }
      forall i | 0 <= i < |b| ensures b[i] != x {
        assert a[0] == x && a[i + 1] == b[i];
        assert a[0] != a[i + 1];
      }
    }
    if Unique(b) && x !in b {
      forall i, j | 0 <= i < j < |a| ensures a[i] != a[j] {
        assert a[j] == b[j - 1];
        if i > 0 {
          assert a[i] == b[i - 1];
        }
      }
    }
  }

  lemma KeyOfMember(rows: seq<Row>, x: Row)
    requires x in rows
    ensures x.key in Keys(rows)
  {
    var m :| 0 <= m < |rows| && rows[m] == x;
    assert Keys(rows)[m] == x.key;
  }

  /** Deleting keeps keys unique. */
  lemma {:induction false} DeleteKeepsUnique(rows: seq<Row>, key: string)
    requires KeysUnique(rows)
    ensures KeysUnique(Delete(rows, key))
  {
    if rows != [] {
      var tail := rows[1..];
      assert Keys(rows) == [rows[0].key] + Keys(tail);
      UniqueCons(rows[0].key, Keys(tail));
      DeleteKeepsUnique(tail, key);
      var rest := Delete(tail, key);
      if rows[0].key != key {
        assert Delete(rows, key) == [rows[0]] + rest;
        assert ([rows[0]] + rest)[1..] == rest;
        assert Keys([rows[0]] + rest) == [rows[0].key] + Keys(rest);
        assert rows[0].key !in Keys(rest) by {
          forall j | 0 <= j < |rest| ensures Keys(rest)[j] != rows[0].key {
            KeyOfMember(tail, rest[j]);
          }
        }
        UniqueCons(rows[0].key, Keys(rest));
      } else {
        assert Delete(rows, key) == rest;
      }
    }
  }

  /** Deleting keeps keys below the counter. */
  lemma DeleteKeepsBelow(rows: seq<Row>, key: string, count: nat)
    requires KeysBelow(rows, count)
    ensures KeysBelow(Delete(rows, key), count)
  {
    var r := Delete(rows, key);
    forall i | 0 <= i < |r| ensures Value(Keys(r)[i]) < count {
      KeyOfMember(rows, r[i]);
    }
  }

  // ---- handleSave ----

  /** `rows.findIndex(item => key === item.key)`: the first row with the key, or -1. */
  function FindIndex(rows: seq<Row>, key: string): (i: int)
    ensures -1 <= i < |rows|
    ensures i >= 0 ==> rows[i].key == key && forall j :: 0 <= j < i ==> rows[j].key != key
    ensures i == -1 <==> forall j :: 0 <= j < |rows| ==> rows[j].key != key
  {
    if rows == [] then -1
    else if rows[0].key == key then 0
    else
      var i := FindIndex(rows[1..], key);
      if i == -1 then -1 else i + 1
  }

  /**
   * `handleSave(row)`: a copy of the table in which `splice(index, 1, {...item, ...row})`
   * replaces the row with `row`'s key. The edit cell passes a whole row, so
   * `{...item, ...row}` is `row`. With no such key `index` is -1, and `splice(-1, 1, x)`
   * replaces the last row, or makes `[x]` of an empty table.
   */
  function Save(rows: seq<Row>, row: Row): (r: seq<Row>)
    ensures rows == [] ==> r == [row]
    ensures rows != [] ==> |r| == |rows|
    ensures rows != [] ==> var at := SaveIndex(rows, row.key);
      r[at] == row && forall j :: 0 <= j < |rows| && j != at ==> r[j] == rows[j]
  {
    if rows == [] then [row] else rows[SaveIndex(rows, row.key) := row]
  }

  /**
   * The position `splice` writes to: the first row with the key or, for the
   * index -1, the last row.
   */
  function SaveIndex(rows: seq<Row>, key: string): (at: nat)
    requires rows != []
    ensures at < |rows|
    ensures (exists j :: 0 <= j < |rows| && rows[j].key == key) ==>
      rows[at].key == key && forall j :: 0 <= j < at ==> rows[j].key != key
    ensures (forall j :: 0 <= j < |rows| ==> rows[j].key != key) ==> at == |rows| - 1
  {
    var index := FindIndex(rows, key);
    if index >= 0 then index else |rows| - 1
  }

  /** Saving a row whose key is in the table keeps every key where it was. */
  lemma SaveKeepsKeys(rows: seq<Row>, row: Row)
    requires exists j :: 0 <= j < |rows| && rows[j].key == row.key
    ensures Keys(Save(rows, row)) == Keys(rows)
  {
    var r := Save(rows, row);
    var at := SaveIndex(rows, row.key);
    assert r[at].key == rows[at].key;
    forall j | 0 <= j < |rows| ensures Keys(r)[j] == Keys(rows)[j] {
      if j != at {
        assert r[j] == rows[j];
      }
    }
  }

  // ---- handleOk ----

  /**
   * The rows made from an analysis reply: the first five items, row `idx` keyed by
   * the numeral of `count + idx`, with the asset name and the placeholder treatment.
   */
  function NewRows(items: seq<Item>, activo: string, count: nat): (r: seq<Row>)
    ensures |r| <= MaxGenerated && |r| <= |items|
    ensures |r| == MaxGenerated || |r| == |items|
    ensures forall idx :: 0 <= idx < |r| ==>
      r[idx] == Row(Show(count + idx), activo, items[idx].riesgo, items[idx].impacto, Placeholder)
  {
    var first := if |items| <= MaxGenerated then items else items[..MaxGenerated];
    seq(|first|, idx requires 0 <= idx < |first| =>
      Row(Show(count + idx), activo, first[idx].riesgo, first[idx].impacto, Placeholder))
  }

  /** The numerals of `from`, `from + 1`, ..., `from + n - 1`. */
  function Numerals(from: nat, n: nat): seq<string>
  {
    seq(n, j requires 0 <= j < n => Show(from + j))
  }

  /** The keys of the new rows are the numerals of `count`, `count + 1`, ... */
  lemma NewKeys(items: seq<Item>, activo: string, count: nat)
    ensures var added := NewRows(items, activo, count);
      Keys(added) == Numerals(count, |added|)
  {
  }

  lemma {:induction false} KeysAppend(a: seq<Row>, b: seq<Row>)
    ensures Keys(a + b) == Keys(a) + Keys(b)
  {
    if a != [] {
      assert (a + b)[1..] == a[1..] + b;
      KeysAppend(a[1..], b);
    } else {
      assert a + b == b;
    }
  }

  lemma NumeralsUnique(from: nat, n: nat)
    ensures Unique(Numerals(from, n))
  {
    var ks := Numerals(from, n);
    forall i, j | 0 <= i < j < n ensures ks[i] != ks[j] {
      if ks[i] == ks[j] {
        ShowInjective(from + i, from + j);
      }
    }
  }

  lemma NumeralsBelow(from: nat, n: nat)
    ensures Below(Numerals(from, n), from + n)
  {
    var ks := Numerals(from, n);
    forall i | 0 <= i < n ensures Value(ks[i]) < from + n {
      ValueOfShow(from + i);
    }
  }

  lemma BelowConcat(a: seq<string>, b: seq<string>, count: nat, count': nat)
    requires Below(a, count) && Below(b, count') && count <= count'
    ensures Below(a + b, count')
  {
    forall i | 0 <= i < |a + b| ensures Value((a + b)[i]) < count' {
      if i < |a| {
        assert (a + b)[i] == a[i];
      } else {
        assert (a + b)[i] == b[i - |a|];
      }
    }
  }

  lemma UniqueConcat(a: seq<string>, from: nat, n: nat)
    requires Unique(a) && Below(a, from)
    ensures Unique(a + Numerals(from, n))
  {
    var b := Numerals(from, n);
    NumeralsUnique(from, n);
    forall i, j | 0 <= i < j < |a + b| ensures (a + b)[i] != (a + b)[j] {
      if j < |a| {
        assert (a + b)[i] == a[i] && (a + b)[j] == a[j];
      } else if i < |a| {
        assert (a + b)[i] == a[i] && (a + b)[j] == b[j - |a|] == Show(from + (j - |a|));
        ValueOfShow(from + (j - |a|));
      } else {
        assert (a + b)[i] == b[i - |a|] && (a + b)[j] == b[j - |a|];
      }
    }
  }

  /**
   * Appending the new rows and advancing the counter by their number keeps
   * keys unique and below the counter.
   */
  lemma AppendKeepsKeys(rows: seq<Row>, items: seq<Item>, activo: string, count: nat)
    requires TableInvariant(rows, count)
    ensures var added := NewRows(items, activo, count);
      TableInvariant(rows + added, count + |added|)
  {
    var added := NewRows(items, activo, count);
    KeysAppend(rows, added);
    NewKeys(items, activo, count);
    UniqueConcat(Keys(rows), count, |added|);
    NumeralsBelow(count, |added|);
    BelowConcat(Keys(rows), Keys(added), count, count + |added|);
  }

  // ---- handleRecommendTreatment ----

  /** `row.tratamiento && row.tratamiento !== "-"`: the row already has a treatment. */
  predicate HasTreatment(row: Row) {
    row.tratamiento != "" && row.tratamiento != Placeholder
  }

  /**
   * One turn of the recommendation loop: a row with a treatment is kept; any other
   * gets the returned treatment, or `"-"` when the reply has none or the request
   * failed (`row.tratamiento || "-"` is `"-"` for such a row).
   */
  function Recommend(row: Row, reply: TreatmentReply): (r: Row)
    ensures r.(tratamiento := row.tratamiento) == row
    ensures HasTreatment(row) ==> r == row
    ensures !HasTreatment(row) && reply.Answered? && reply.tratamiento != "" ==> r.tratamiento == reply.tratamiento
    ensures !HasTreatment(row) && (reply.RequestFailed? || reply.tratamiento == "") ==> r.tratamiento == Placeholder
    ensures r.tratamiento != ""
  {
    if HasTreatment(row) then row
    else match reply
      case Answered(t) => row.(tratamiento := if t != "" then t else Placeholder)
      case RequestFailed => row.(tratamiento := if row.tratamiento != "" then row.tratamiento else Placeholder)
  }

  /**
   * The `for (const row of dataSource)` loop that pushes each row's new version
   * into `updated`; `replies[i]` is what the request for row `i` would return.
   */
  method RecommendAll(rows: seq<Row>, replies: seq<TreatmentReply>) returns (updated: seq<Row>)
    requires |replies| == |rows|
    ensures |updated| == |rows|
    ensures forall i :: 0 <= i < |rows| ==> updated[i] == Recommend(rows[i], replies[i])
  {
    updated := [];
    for i := 0 to |rows|
      invariant |updated| == i
      invariant forall j :: 0 <= j < i ==> updated[j] == Recommend(rows[j], replies[j])
    {
      var row := rows[i];
      if HasTreatment(row) {
        updated := updated + [row];
        continue;
      }
      match replies[i]
      case Answered(t) =>
        updated := updated + [row.(tratamiento := if t != "" then t else Placeholder)];
      case RequestFailed =>
        updated := updated + [row.(tratamiento := if row.tratamiento != "" then row.tratamiento else Placeholder)];
    }
  }

  /** The table's state in the App component. */
  class Editor {
    /** `dataSource`: the rows of the table. */
    var rows: seq<Row>
    /** `count`: the counter the next generated key is taken from. */
    var count: nat
    /** `suggestEnabled`: whether the recommendation button is enabled. */
    var suggestEnabled: bool
    /** `isModalVisible`: whether the add-asset dialog is open. */
    var modalVisible: bool
    /** `newData.activo`: the asset name typed into the dialog. */
    var draft: string

    ghost predicate Valid()
      reads this`rows, this`count
    {
      TableInvariant(rows, count)
    }

    /** The initial state: an empty table and the counter at 1. */
    constructor ()
      ensures Valid()
      ensures rows == [] && count == 1 && !suggestEnabled && !modalVisible && draft == ""
    {
      rows, count := [], 1;
      suggestEnabled, modalVisible := false, false;
      draft := "";
    }

    /** `handleDelete(key)`. */
    method HandleDelete(key: string)
      modifies this`rows
      ensures rows == Delete(old(rows), key)
      ensures old(Valid()) ==> Valid()
    {
      if Valid() {
        DeleteKeepsUnique(rows, key);
        DeleteKeepsBelow(rows, key, count);
      }
      rows := Delete(rows, key);
    }

    /** `handleSave(row)`. */
    method HandleSave(row: Row)
      modifies this`rows
      ensures rows == Save(old(rows), row)
      ensures old(Valid()) && (exists j :: 0 <= j < |old(rows)| && old(rows)[j].key == row.key) ==> Valid()
    {
      if exists j :: 0 <= j < |rows| && rows[j].key == row.key {
        SaveKeepsKeys(rows, row);
      }
      rows := Save(rows, row);
    }

    /**
     * The state updates of a successful analysis: the new rows go after the
     * existing ones and the counter advances by their number.
     */
    method AppendRows(items: seq<Item>, activo: string) returns (added: seq<Row>)
      modifies this`rows, this`count
      ensures added == NewRows(items, activo, old(count))
      ensures rows == old(rows) + added && count == old(count) + |added|
      ensures old(Valid()) ==> Valid()
    {
      added := NewRows(items, activo, count);
      ghost var before, counted := rows, count;
      rows, count := rows + added, count + |added|;
      if TableInvariant(before, counted) {
        AppendKeepsKeys(before, items, activo, counted);
      }
    }

    /**
     * `handleOk()`, with `reply` the items of the analysis reply (`None` for a
     * failed request; a reply without `items` is `Some([])`).
     */
    method HandleOk(reply: Option<seq<Item>>) returns (notice: Notice)
      modifies this
      ensures Trim(old(draft)) == [] ==>
        notice == MissingAsset && rows == old(rows) && count == old(count)
        && suggestEnabled == old(suggestEnabled) && modalVisible == old(modalVisible) && draft == old(draft)
      ensures Trim(old(draft)) != [] && (reply.None? || reply.value == []) ==>
        notice == AnalysisFailed && rows == old(rows) && count == old(count)
        && suggestEnabled == old(suggestEnabled) && modalVisible == old(modalVisible) && draft == ""
      ensures Trim(old(draft)) != [] && reply.Some? && reply.value != [] ==>
        var added := NewRows(reply.value, Trim(old(draft)), old(count));
        && 1 <= |added| <= MaxGenerated
        && notice == Evaluated(Trim(old(draft)), |added|)
        && rows == old(rows) + added && count == old(count) + |added|
        && suggestEnabled && !modalVisible && draft == ""
      ensures old(Valid()) ==> Valid()
    {
      var activo := Trim(draft);
      if activo == [] {
        return MissingAsset;
      }
      var items := if reply.Some? then reply.value else [];
      if items == [] {
        draft := "";
        return AnalysisFailed;
      }
      var added := AppendRows(items, activo);
      suggestEnabled := true;
      modalVisible := false;
      draft := "";
      return Evaluated(activo, |added|);
    }

    /** `handleRecommendTreatment()`, with `replies[i]` the reply for row `i`. */
    method HandleRecommendTreatment(replies: seq<TreatmentReply>) returns (notice: Notice)
      requires |replies| == |rows|
      modifies this`rows
      ensures old(rows) == [] ==> notice == NothingToRecommend && rows == []
      ensures old(rows) != [] ==> notice == TreatmentsRecommended
      ensures |rows| == |old(rows)|
      ensures forall i :: 0 <= i < |rows| ==> rows[i] == Recommend(old(rows)[i], replies[i])
      ensures old(Valid()) ==> Valid()
    {
      if |rows| == 0 {
        return NothingToRecommend;
      }
      var before := rows;
      rows := RecommendAll(rows, replies);
      assert Keys(rows) == Keys(before);
      notice := TreatmentsRecommended;
    }
  }
}
