/**
 Migration 0008 of the `events` table, `backend/alembic/versions/0008_event_spans.py`: the cost
 column moves into the JSON data of its row, and back. A dropped or added column is a NULL one here.
 */
module Migration {
  import opened Text
  import opened Numerals

  /** A `numeric` is known by its text, which both casts keep to the last digit. */
  predicate IsNumeral(s: string) {
    || s == "NaN" || s == "Infinity" || s == "-Infinity"
    || IsFigures(Unsigned(s))
  }

  function Unsigned(s: string): string {
    if s != "" && s[0] == '-' then s[1..] else s
  }

  /** Digits, with at most one point among them. */
  predicate IsFigures(t: string) {
    && t != "" && IsDigit(t[0]) && IsDigit(t[|t| - 1])
    && (forall i :: 0 <= i < |t| ==> IsDigit(t[i]) || t[i] == '.')
    && forall i, j :: 0 <= i < j < |t| && t[i] == '.' ==> t[j] != '.'
  }

  type Numeral = s: string | IsNumeral(s) witness "NaN"

  /** `jsonb` */
  datatype Json =
    | Null
    | Boolean(value: bool)
    | Number(text: Numeral)
    | Text(s: string)
    | Array(items: seq<Json>)
    | Object(fields: map<string, Json>)

  datatype Event = Event(
    id: int,
    cost: Option<Numeral>,
    data: Option<Json>,
    instance: Option<int>,
    process: Option<int>)

  const COST := "legacy_cost_usd"
  const MIGRATED := "legacy_cost_migrated_0008"
  const WAS_NULL := "legacy_cost_data_was_null_0008"

  /** `to_jsonb(cost)`: the numbers JSON cannot hold become text. */
  function ToJson(cost: Numeral): Json {
    if cost == "NaN" || cost == "Infinity" || cost == "-Infinity" then Text(cost) else Number(cost)
  }

  /** `data ->> key`, NULL on anything but an object that has the key, and on a JSON null. Arrays and
      objects render to a text that is neither a number nor `true`. */
  function FieldText(data: Option<Json>, key: string): Option<string> {
    if data.Some? && data.value.Object? && key in data.value.fields then
      match data.value.fields[key]
      case Null => None
      case Boolean(b) => Some(if b then "true" else "false")
      case Number(text) => Some(text)
      case Text(s) => Some(s)
      case Array(_) => Some("[...]")
      case Object(_) => Some("{...}")
    else None
  }

  predicate IsTrue(data: Option<Json>, key: string) {
    FieldText(data, key) == Some("true")
  }

  /** `text::numeric`: NULL stays NULL, and a text that is not a number is an error. */
  datatype Cast = Cost(value: Option<Numeral>) | Error

  function ToNumeric(text: Option<string>): Cast {
    match text
    case None => Cost(None)
    case Some(s) => if IsNumeral(s) then Cost(Some(s)) else Error
  }

  // ----- one row

  /** The preflight refuses rows whose data could not take the cost without loss. */
  predicate Conflicts(e: Event) {
    && e.cost.Some? && e.data.Some?
    && (!e.data.value.Object?
        || COST in e.data.value.fields
        || MIGRATED in e.data.value.fields
        || WAS_NULL in e.data.value.fields)
  }

  function UpgradedData(cost: Numeral, data: Option<Json>): Json
    requires data.Some? ==> data.value.Object?
  {
    var fields := if data.Some? then data.value.fields else map[];
    Object(fields
           + map[COST := ToJson(cost), MIGRATED := Boolean(true)]
           + if data.None? then map[WAS_NULL := Boolean(true)] else map[])
  }

  function UpgradedRow(e: Event): Event
    requires !Conflicts(e)
  {
    if e.cost.Some? then e.(cost := None, data := Some(UpgradedData(e.cost.value, e.data))) else e
  }

  datatype RowResult = Row(event: Event) | CastError

  /** The UPDATE of the downgrade; the column it fills has just been added, and is NULL elsewhere. */
  function DowngradedRow(e: Event): RowResult {
    if !IsTrue(e.data, MIGRATED) then Row(e.(cost := None))
    else
      match ToNumeric(FieldText(e.data, COST))
      case Error => CastError
      case Cost(cost) =>
        Row(e.(cost := cost,
               data := if IsTrue(e.data, WAS_NULL) then None
                       else Some(Object(e.data.value.fields - {COST, MIGRATED, WAS_NULL}))))
  }

  // ----- the table

  /** `ref NOT IN (SELECT id ...)`, which holds of any reference, NULL included, when the selected
      table is empty. */
  predicate NotIn(ref: Option<int>, ids: set<int>) {
    ids == {} || (ref.Some? && ref.value !in ids)
  }

  predicate Orphaned(e: Event, instances: set<int>, processes: set<int>) {
    NotIn(e.instance, instances) || NotIn(e.process, processes)
  }

  function Kept(rows: seq<Event>, instances: set<int>, processes: set<int>): seq<Event> {
    if rows == [] then []
    else
      (if Orphaned(rows[0], instances, processes) then [] else [rows[0]])
      + Kept(rows[1..], instances, processes)
  }

  predicate CanUpgrade(rows: seq<Event>) {
    forall i :: 0 <= i < |rows| ==> !Conflicts(rows[i])
  }

  function Upgraded(rows: seq<Event>): seq<Event>
    requires CanUpgrade(rows)
  {
    seq(|rows|, i requires 0 <= i < |rows| => UpgradedRow(rows[i]))
  }

  predicate CanDowngrade(rows: seq<Event>) {
    forall i :: 0 <= i < |rows| ==> DowngradedRow(rows[i]).Row?
  }

  function Downgraded(rows: seq<Event>): seq<Event>
    requires CanDowngrade(rows)
  {
    seq(|rows|, i requires 0 <= i < |rows| => DowngradedRow(rows[i]).event)
  }

  /** The `events` table; each migration is one transaction, which an error leaves without effect. */
  class Table {
    var rows: seq<Event>

    constructor (rows: seq<Event>)
      ensures this.rows == rows
    {
      this.rows := rows;
    }

    method Upgrade() returns (done: bool)
      modifies this
      ensures done <==> CanUpgrade(old(rows))
      ensures rows == if done then Upgraded(old(rows)) else old(rows)
    {
      for i := 0 to |rows|
        invariant rows == old(rows)
        invariant forall j :: 0 <= j < i ==> !Conflicts(rows[j])
      {
        if Conflicts(rows[i]) {
          return false;
        }
      }
      var updated: seq<Event> := [];
      for i := 0 to |rows|
        invariant rows == old(rows) && |updated| == i
        invariant forall j :: 0 <= j < i ==> updated[j] == UpgradedRow(rows[j])
      {
        updated := updated + [UpgradedRow(rows[i])];
      }
      rows := updated;
      return true;
    }

    method Downgrade(instances: set<int>, processes: set<int>) returns (done: bool)
      modifies this
      ensures done <==> CanDowngrade(old(rows))
      ensures rows == if done then Kept(Downgraded(old(rows)), instances, processes) else old(rows)
    {
      var updated: seq<Event> := [];
      for i := 0 to |rows|
        invariant rows == old(rows) && |updated| == i
        invariant forall j :: 0 <= j < i ==> DowngradedRow(rows[j]) == Row(updated[j])
      {
        var row := DowngradedRow(rows[i]);
        if row.CastError? {
          return false;
        }
        updated := updated + [row.event];
      }
      assert updated == Downgraded(rows);
      rows := Kept(updated, instances, processes);
      return true;
    }
  }

  // ----- what the migrations do to one row

  /** The preflight refuses a row with a cost whose data is no object, or has one of the three keys. */
  lemma {:induction false} ConflictsIff(e: Event)
    ensures Conflicts(e) <==>
            e.cost.Some? && e.data.Some?
            && (e.data.value.Object? ==>
                  || "legacy_cost_usd" in e.data.value.fields
                  || "legacy_cost_migrated_0008" in e.data.value.fields
                  || "legacy_cost_data_was_null_0008" in e.data.value.fields)
  {
  }

  /** The upgrade leaves a row without a cost as it is. A cost becomes a JSON number, or the text of one
      that JSON has no number for, beside the fields there were and the marker; data that was NULL gets a
      marker more. Nothing else of the row changes. */
  lemma {:induction false} UpgradedRowIs(e: Event)
    requires !Conflicts(e)
    ensures var u := UpgradedRow(e);
            && u.id == e.id && u.instance == e.instance && u.process == e.process && u.cost == None
            && (e.cost.None? ==> u.data == e.data)
            && (e.cost.Some? ==>
                  && u.data.Some? && u.data.value.Object?
                  && var old' := if e.data.Some? then e.data.value.fields else map[];
                     var new' := u.data.value.fields;
                     && (forall k :: k in old' ==> k in new' && new'[k] == old'[k])
                     && (forall k :: k in new' ==>
                           || k in old' || k == "legacy_cost_usd" || k == "legacy_cost_migrated_0008"
                           || (k == "legacy_cost_data_was_null_0008" && e.data.None?))
                     && "legacy_cost_usd" in new'
                     && (new'["legacy_cost_usd"]
                         == if e.cost.value in {"NaN", "Infinity", "-Infinity"} then Text(e.cost.value)
                            else Number(e.cost.value))
                     && "legacy_cost_migrated_0008" in new'
                     && new'["legacy_cost_migrated_0008"] == Boolean(true)
                     && (e.data.None? ==>
                           "legacy_cost_data_was_null_0008" in new'
                           && new'["legacy_cost_data_was_null_0008"] == Boolean(true)))
  {
  }

  /** `data ->> key = 'true'` holds of a JSON true and of that text. */
  predicate SaysTrue(data: Option<Json>, key: string) {
    && data.Some? && data.value.Object? && key in data.value.fields
    && (data.value.fields[key] == Boolean(true) || data.value.fields[key] == Text("true"))
  }

  lemma {:induction false} IsTrueIff(data: Option<Json>, key: string)
    ensures IsTrue(data, key) <==> SaysTrue(data, key)
  {
    if data.Some? && data.value.Object? && key in data.value.fields {
      match data.value.fields[key] {
        case Null =>
        case Boolean(_) =>
        case Number(text) => assert text != "true" by { assert "true"[0] == 't'; }
        case Text(_) =>
        case Array(_) => assert "[...]"[0] == '[' && "true"[0] == 't';
        case Object(_) => assert "{...}"[0] == '{' && "true"[0] == 't';
      }
    }
  }

  /** The downgrade leaves an unmarked row's data alone. A marked row gets the number its cost field
      says, or none if that field is missing or null, and fails on anything else; its data is NULL again
      where it was, and loses the three fields elsewhere. */
  lemma {:induction false} DowngradedRowIs(e: Event)
    ensures !SaysTrue(e.data, "legacy_cost_migrated_0008") ==> DowngradedRow(e) == Row(e.(cost := None))
    ensures SaysTrue(e.data, "legacy_cost_migrated_0008") ==>
              var fields := e.data.value.fields;
              var cost := if "legacy_cost_usd" in fields then fields["legacy_cost_usd"] else Null;
              && (DowngradedRow(e).CastError? <==>
                    !(cost.Null? || cost.Number? || (cost.Text? && IsNumeral(cost.s))))
              && (DowngradedRow(e).Row? ==>
                    DowngradedRow(e).event
                    == e.(cost := if cost.Null? then None
                                  else if cost.Number? then Some(cost.text) else Some(cost.s),
                          data := if SaysTrue(e.data, "legacy_cost_data_was_null_0008") then None
                                  else Some(Object(map k | k in fields
                                                    && k != "legacy_cost_usd"
                                                    && k != "legacy_cost_migrated_0008"
                                                    && k != "legacy_cost_data_was_null_0008"
                                                    :: fields[k]))))
  {
    IsTrueIff(e.data, MIGRATED);
    IsTrueIff(e.data, WAS_NULL);
    if SaysTrue(e.data, MIGRATED) {
      var fields := e.data.value.fields;
      assert fields - {COST, MIGRATED, WAS_NULL}
          == map k | k in fields && k != COST && k != MIGRATED && k != WAS_NULL :: fields[k];
      assert !IsNumeral("true") && !IsNumeral("false") && !IsNumeral("[...]") && !IsNumeral("{...}") by {
        assert "true"[0] == 't' && "false"[0] == 'f' && "[...]"[0] == '[' && "{...}"[0] == '{';
      }
    }
  }

  /** The clean-up deletes a row when the table of instances, or of processes, is empty, or when its
      reference is set and not there. */
  lemma {:induction false} OrphanedIff(e: Event, instances: set<int>, processes: set<int>)
    ensures Orphaned(e, instances, processes) <==>
            || |instances| == 0 || |processes| == 0
            || (e.instance.Some? && e.instance.value !in instances)
            || (e.process.Some? && e.process.value !in processes)
  {
  }

  /** Figures with or without a sign and decimals are numerals. */
  lemma {:induction false} FiguresAreNumerals(whole: string, fraction: string)
    requires whole != "" && AllDigits(whole) && AllDigits(fraction)
    ensures IsNumeral(whole) && IsNumeral("-" + whole)
    ensures fraction != "" ==> IsNumeral(whole + "." + fraction) && IsNumeral("-" + whole + "." + fraction)
    ensures IsNumeral("NaN") && IsNumeral("Infinity") && IsNumeral("-Infinity")
  {
    assert ("-" + whole)[1..] == whole;
    assert ("-" + whole + "." + fraction)[1..] == whole + "." + fraction;
  }

  /** And nothing else is. */
  lemma {:induction false} NumeralsAreFigures(s: string) returns (sign: string, whole: string, fraction: string)
    requires IsNumeral(s) && s != "NaN" && s != "Infinity" && s != "-Infinity"
    ensures sign in {"", "-"} && whole != "" && AllDigits(whole) && AllDigits(fraction)
    ensures s == sign + whole + if fraction == "" then "" else "." + fraction
  {
    var t := Unsigned(s);
    FiguresOfNumeral(s);
    hide IsNumeral;
    sign := if s != "" && s[0] == '-' then "-" else "";
    assert s == sign + t;
    whole, fraction := AtThePoint(t);
    var rest := if fraction == "" then "" else "." + fraction;
    SignRegroups(s, sign, whole, rest);
  }

  lemma {:induction false} SignRegroups(s: string, sign: string, whole: string, rest: string)
    requires s == sign + (whole + rest)
    ensures s == sign + whole + rest
  {
  }

  lemma {:induction false} FiguresOfNumeral(s: string)
    requires IsNumeral(s) && s != "NaN" && s != "Infinity" && s != "-Infinity"
    ensures IsFigures(Unsigned(s))
  {
    hide IsFigures;
  }

  lemma {:induction false} AtThePoint(t: string) returns (whole: string, fraction: string)
    requires t != "" && IsDigit(t[0]) && IsDigit(t[|t| - 1])
    requires forall i :: 0 <= i < |t| ==> IsDigit(t[i]) || t[i] == '.'
    requires forall i, j :: 0 <= i < j < |t| && t[i] == '.' ==> t[j] != '.'
    ensures whole != "" && AllDigits(whole) && AllDigits(fraction)
    ensures t == whole + if fraction == "" then "" else "." + fraction
  {
    if i :| 0 <= i < |t| && t[i] == '.' {
      whole, fraction := t[..i], t[i + 1..];
      assert forall j :: 0 <= j < i ==> t[j] != '.';
      assert t == whole + "." + fraction;
    } else {
      whole, fraction := t, "";
    }
  }

  // ----- the round trip

  /** A row that never had a cost and already carries the marker: the downgrade takes it for its own. */
  predicate Impostor(e: Event) {
    e.cost.None? && IsTrue(e.data, MIGRATED)
  }

  lemma {:induction false} CostComesBack(e: Event)
    requires e.cost.Some? && !Conflicts(e)
    ensures DowngradedRow(UpgradedRow(e)) == Row(e)
  {
    var u := UpgradedRow(e);
    var fields := if e.data.Some? then e.data.value.fields else map[];
    assert IsTrue(u.data, MIGRATED);
    assert FieldText(u.data, COST) == Some(e.cost.value);
    assert IsTrue(u.data, WAS_NULL) <==> e.data.None?;
    if e.data.Some? {
      assert u.data.value.fields - {COST, MIGRATED, WAS_NULL} == fields;
    }
  }

  lemma {:induction false} ImpostorIsChanged(e: Event)
    requires Impostor(e)
    ensures DowngradedRow(e) != Row(e)
  {
  }

  /** A row the preflight lets pass comes back with its cost and its data, NULLs included, exactly
      when it is not an impostor. */
  lemma {:induction false} RowRoundTrip(e: Event)
    requires !Conflicts(e)
    ensures DowngradedRow(UpgradedRow(e)) == Row(e) <==> !Impostor(e)
  {
    if e.cost.Some? {
      CostComesBack(e);
    } else if Impostor(e) {
      ImpostorIsChanged(e);
    }
  }

  lemma {:induction false} KeptAtMost(rows: seq<Event>, instances: set<int>, processes: set<int>)
    ensures |Kept(rows, instances, processes)| <= |rows|
    ensures |Kept(rows, instances, processes)| == |rows| <==>
            forall i :: 0 <= i < |rows| ==> !Orphaned(rows[i], instances, processes)
    ensures |Kept(rows, instances, processes)| == |rows| ==> Kept(rows, instances, processes) == rows
  {
    hide Orphaned;
    if rows != [] {
      KeptAtMost(rows[1..], instances, processes);
      if forall i :: 0 <= i < |rows[1..]| ==> !Orphaned(rows[1..][i], instances, processes) {
        assert forall i :: 1 <= i < |rows| ==> rows[i] == rows[1..][i - 1];
      }
    }
  }

  /** Upgrade, then downgrade: the table is what it was, row by row, exactly when it holds no
      impostor and the clean-up of references deletes no row. */
  lemma {:induction false} TableRoundTrip(rows: seq<Event>, instances: set<int>, processes: set<int>)
    requires CanUpgrade(rows)
    ensures (CanDowngrade(Upgraded(rows))
             && Kept(Downgraded(Upgraded(rows)), instances, processes) == rows)
            <==> forall i :: 0 <= i < |rows| ==>
                   !Impostor(rows[i]) && !Orphaned(rows[i], instances, processes)
  {
    var up := Upgraded(rows);
    forall i | 0 <= i < |rows|
      ensures DowngradedRow(up[i]) == Row(rows[i]) <==> !Impostor(rows[i])
      ensures DowngradedRow(up[i]).Row? ==>
                DowngradedRow(up[i]).event.instance == rows[i].instance
                && DowngradedRow(up[i]).event.process == rows[i].process
    {
      RowRoundTrip(rows[i]);
    }
    if CanDowngrade(up) {
      var down := Downgraded(up);
      KeptAtMost(down, instances, processes);
      if forall i :: 0 <= i < |rows| ==> !Impostor(rows[i]) {
        assert down == rows;
      }
      if Kept(down, instances, processes) == rows {
        assert down == rows;
        assert forall i :: 0 <= i < |rows| ==> DowngradedRow(up[i]) == Row(down[i]);
      }
    } else {
      var i :| 0 <= i < |up| && DowngradedRow(up[i]).CastError?;
      assert Impostor(rows[i]);
    }
  }

  /** What the foreign keys, in force before the upgrade, say of the references. */
  predicate ReferencesExist(rows: seq<Event>, instances: set<int>, processes: set<int>) {
    forall i :: 0 <= i < |rows| ==>
      (rows[i].instance.Some? ==> rows[i].instance.value in instances)
      && (rows[i].process.Some? ==> rows[i].process.value in processes)
  }

  /** Even with every reference in order, a database without instances, or without processes, loses
      all its events in the downgrade. */
  lemma {:induction false} EmptyTableLosesEveryEvent(rows: seq<Event>, instances: set<int>, processes: set<int>)
    requires CanUpgrade(rows) && ReferencesExist(rows, instances, processes)
    requires forall i :: 0 <= i < |rows| ==> !Impostor(rows[i])
    ensures CanDowngrade(Upgraded(rows))
    ensures Kept(Downgraded(Upgraded(rows)), instances, processes)
         == if instances == {} || processes == {} then [] else rows
  {
    var up := Upgraded(rows);
    forall i | 0 <= i < |rows|
      ensures DowngradedRow(up[i]) == Row(rows[i])
    {
      RowRoundTrip(rows[i]);
    }
    assert Downgraded(up) == rows;
    if instances == {} || processes == {} {
      NothingKept(rows, instances, processes);
    } else {
      KeptAtMost(rows, instances, processes);
    }
  }

  lemma {:induction false} NothingKept(rows: seq<Event>, instances: set<int>, processes: set<int>)
    requires instances == {} || processes == {}
    ensures Kept(rows, instances, processes) == []
  {
    if rows != [] {
      NothingKept(rows[1..], instances, processes);
    }
  }
}
