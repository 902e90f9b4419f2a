/**
 * The record store: the vehicle-number to record mapping that the JSON file
 * holds, and the operations of the application that read and replace it.
 *
 * The file is a field of `VehicleStore`; loading it reads the field and
 * saving it assigns the field.  Python's dict keeps its keys in insertion
 * order, which is the order `export_csv` writes its rows in, so the mapping
 * is a `Dict`: the keys in insertion order beside the map itself.
 */
module RecordStore {
  import opened Wrappers
  import opened Text
  import opened Calendar
  import opened DateFormat
  import opened ServiceCalculator
  import opened Ordering

  /** The five stored fields of one vehicle. */
  datatype Record = Record(
    lastServiceDate: string,
    lastServiceKm: int,
    currentKm: int,
    nextServiceDate: string,
    nextServiceKm: int)

  /** A Python dict from vehicle numbers to records. */
  datatype Dict = Dict(order: seq<string>, records: map<string, Record>) {

    /** Every key is listed once in `order`, and `order` lists only keys. */
    ghost predicate Valid() {
      Distinct(order) && forall k :: k in records <==> k in order
    }

    /** `d[k] = v`: a new key is appended, an existing key keeps its place. */
    function Put(k: string, v: Record): (r: Dict)
      requires Valid()
      ensures r.Valid()
      ensures r.records == records[k := v]
      ensures k in records ==> r.order == order
      ensures k !in records ==> r.order == order + [k]
    {
      if k in records then Dict(order, records[k := v]) else Dict(order + [k], records[k := v])
    }

    /** `list(d.items())`. */
    function Items(): (items: seq<(string, Record)>)
      requires Valid()
      ensures |items| == |order|
      ensures forall i | 0 <= i < |items| :: items[i] == (order[i], records[order[i]])
    {
      seq(|order|, i requires 0 <= i < |order| => (order[i], records[order[i]]))
    }
  }

  const EmptyDict := Dict([], map[])

  /** The dict `json.load` builds from an object's members: later duplicates overwrite earlier ones. */
  function FromPairs(pairs: seq<(string, Record)>): (d: Dict)
    ensures d.Valid()
    ensures forall k :: k in d.records <==> exists i | 0 <= i < |pairs| :: pairs[i].0 == k
    decreases |pairs|
  {
    if pairs == [] then EmptyDict
    else
      var init := pairs[..|pairs| - 1];
      var last := pairs[|pairs| - 1];
      assert forall i | 0 <= i < |init| :: init[i] == pairs[i];
      FromPairs(init).Put(last.0, last.1)
  }

  /** A key's value in the rebuilt dict is the one its last member carries. */
  lemma {:induction false} FromPairsLastWins(pairs: seq<(string, Record)>, i: nat)
    requires i < |pairs|
    requires forall j | i < j < |pairs| :: pairs[j].0 != pairs[i].0
    ensures pairs[i].0 in FromPairs(pairs).records
    ensures FromPairs(pairs).records[pairs[i].0] == pairs[i].1
    decreases |pairs|
  {
    if i < |pairs| - 1 {
      FromPairsLastWins(pairs[..|pairs| - 1], i);
    }
  }

  /** `d` without its most recently inserted key. */
  function DropLast(d: Dict): (e: Dict)
    requires d.Valid() && d.order != []
    ensures e.Valid()
    ensures e.order == d.order[..|d.order| - 1]
    ensures e.records == d.records - {d.order[|d.order| - 1]}
  {
    var k := d.order[|d.order| - 1];
    assert forall j | 0 <= j < |d.order| - 1 :: d.order[j] != k;
    Dict(d.order[..|d.order| - 1], d.records - {k})
  }

  lemma DropLastItems(d: Dict)
    requires d.Valid() && d.order != []
    ensures DropLast(d).Items() == d.Items()[..|d.order| - 1]
  {
  }

  lemma DropLastPut(d: Dict)
    requires d.Valid() && d.order != []
    ensures var k := d.order[|d.order| - 1]; DropLast(d).Put(k, d.records[k]) == d
  {
    var k := d.order[|d.order| - 1];
    assert d.order[..|d.order| - 1] + [k] == d.order;
    assert (d.records - {k})[k := d.records[k]] == d.records;
  }

  /** Restoring a backup of the store rebuilds exactly the store, keys in the same order. */
  lemma {:induction false} FromPairsItems(d: Dict)
    requires d.Valid()
    ensures FromPairs(d.Items()) == d
    decreases |d.order|
  {
    if d.order == [] {
      DictSize(d);
    } else {
      var items := d.Items();
      var k := d.order[|d.order| - 1];
      assert items[|items| - 1] == (k, d.records[k]);
      DropLastItems(d);
      FromPairsItems(DropLast(d));
      DropLastPut(d);
    }
  }

  lemma {:induction false} DistinctCardinality(s: seq<string>)
    requires Distinct(s)
    ensures |set k | k in s| == |s|
  {
    if s != [] {
      DistinctCardinality(s[1..]);
      assert (set k | k in s) == {s[0]} + set k | k in s[1..];
      assert s[0] !in s[1..];
    }
  }

  /** The number of vehicles is the number of keys listed in order. */
  lemma DictSize(d: Dict)
    requires d.Valid()
    ensures |d.records| == |d.order|
  {
    DistinctCardinality(d.order);
    assert d.records.Keys == set k | k in d.order;
  }

  /** Why `add_vehicle` or `update_vehicle` writes nothing. */
  datatype Fault =
    | BadDate        // `strptime` refused the last-service date
    | BadLastKm      // `int()` refused the last-service reading
    | BadCurrentKm   // `int()` refused the current reading
    | DateOverflow   // the due date would fall after 9999-12-31

  /**
   * The record the add and update forms write for these stripped inputs:
   * the inputs checked in the source's order, the date kept as typed, the
   * readings as integers, and both due values derived from this service.
   */
  function ServiceRecord(lastDate: string, lastKm: string, currentKm: string): (r: Result<Record, Fault>)
    ensures r == Failure(BadDate) <==> ParseDate(lastDate).None?
    ensures r == Failure(BadLastKm) <==> ParseDate(lastDate).Some? && ParseInt(lastKm).None?
    ensures r == Failure(BadCurrentKm) <==>
              ParseDate(lastDate).Some? && ParseInt(lastKm).Some? && ParseInt(currentKm).None?
    ensures r == Failure(DateOverflow) <==>
              && ParseDate(lastDate).Some? && ParseInt(lastKm).Some? && ParseInt(currentKm).Some?
              && DayNumber(ParseDate(lastDate).value) + ServiceIntervalDays > MaxDayNumber
    ensures r.Success? <==>
              && ParseDate(lastDate).Some? && ParseInt(lastKm).Some? && ParseInt(currentKm).Some?
              && DayNumber(ParseDate(lastDate).value) + ServiceIntervalDays <= MaxDayNumber
    ensures r.Success? ==>
              && r.value.lastServiceDate == lastDate
              && ParseInt(lastKm) == Some(r.value.lastServiceKm)
              && ParseInt(currentKm) == Some(r.value.currentKm)
              && r.value.nextServiceKm == r.value.lastServiceKm + ServiceIntervalKm
              && ParseDate(r.value.nextServiceDate).Some?
              && DayNumber(ParseDate(r.value.nextServiceDate).value)
                 == DayNumber(ParseDate(lastDate).value) + ServiceIntervalDays
  {
    if ParseDate(lastDate).None? then Failure(BadDate)
    else if ParseInt(lastKm).None? then Failure(BadLastKm)
    else if ParseInt(currentKm).None? then Failure(BadCurrentKm)
    else
      match NextServiceDate(lastDate)
      case Failure(_) => Failure(DateOverflow)
      case Success(nextDate) =>
        var km := ParseInt(lastKm).value;
        Success(Record(lastDate, km, ParseInt(currentKm).value, nextDate, NextServiceKm(km)))
  }

  /** What the user is told after pressing "Add Vehicle" or "Update Service". */
  datatype Outcome =
    | MissingField                                // "All fields are required!"
    | NotFound                                    // "Vehicle not found!"
    | Rejected(fault: Fault, warned: bool)        // an error box, or an uncaught OverflowError
    | Added(nextDate: string, nextKm: int, warned: bool)
    | Updated

  /** The CSV column names. */
  const CsvColumns := ["vehicle", "last_service_date", "last_service_km", "current_km", "next_service_date", "next_service_km"]

  /** The header line `export_csv` writes, character for character. */
  const CsvHeader :=
    "vehicle" + "," + "last_service_date" + "," + "last_service_km" + "," + "current_km" + ","
    + "next_service_date" + "," + "next_service_km"

  /** The six values of one exported row, in column order. */
  function CsvFields(vehicle: string, info: Record): seq<string> {
    [ vehicle, info.lastServiceDate, IntToString(info.lastServiceKm), IntToString(info.currentKm),
      info.nextServiceDate, IntToString(info.nextServiceKm) ]
  }

  /** One row of the CSV export, without its newline. */
  function CsvRow(vehicle: string, info: Record): (row: string)
    ensures |row| > |vehicle| && row[..|vehicle| + 1] == vehicle + ","
  {
    var fields := CsvFields(vehicle, info);
    assert JoinCommas(fields) == vehicle + "," + JoinCommas(fields[1..]);
    JoinCommas(fields)
  }

  /** One row per key, in dict order. */
  function CsvRows(d: Dict): (rows: seq<string>)
    requires d.Valid()
    ensures |rows| == |d.order|
    ensures forall i | 0 <= i < |d.order| :: rows[i] == CsvRow(d.order[i], d.records[d.order[i]])
  {
    seq(|d.order|, i requires 0 <= i < |d.order| => CsvRow(d.order[i], d.records[d.order[i]]))
  }

  /** The lines `export_csv` writes, each followed by a newline: the header, then the rows. */
  function CsvLines(d: Dict): (lines: seq<string>)
    requires d.Valid()
    ensures |lines| == |d.records| + 1
    ensures lines[0] == CsvHeader && lines[1..] == CsvRows(d)
  {
    DictSize(d);
    [CsvHeader] + CsvRows(d)
  }

  lemma NoCommaInInt(i: int)
    ensures ',' !in IntToString(i)
  {
    var s := IntToString(i);
    var t := NatToString(if i < 0 then -i else i);
    forall k | 0 <= k < |s| ensures s[k] != ',' {
      if i < 0 && k > 0 {
        assert s[k] == t[k - 1];
      }
    }
  }

  /** The header is the column names joined with commas. */
  lemma CsvHeaderJoin()
    ensures CsvHeader == JoinCommas(CsvColumns)
  {
    var c := CsvColumns;
    assert c[5..] == ["next_service_km"];
    assert c[4..][1..] == c[5..];
    assert c[3..][1..] == c[4..];
    assert c[2..][1..] == c[3..];
    assert c[1..][1..] == c[2..];
    assert JoinCommas(c[4..]) == "next_service_date" + "," + "next_service_km";
    assert JoinCommas(c[3..]) == "current_km" + "," + ("next_service_date" + "," + "next_service_km");
  }

  /** The header reads back as the six column names. */
  lemma CsvHeaderColumns()
    ensures SplitCommas(CsvHeader) == CsvColumns
  {
    assert forall k | 0 <= k < |CsvColumns| :: ',' !in CsvColumns[k] by {
      forall k | 0 <= k < |CsvColumns| ensures ',' !in CsvColumns[k] {
        NoCommaInColumn(k);
      }
    }
    SplitJoin(CsvColumns);
    CsvHeaderJoin();
  }

  lemma NoCommaInColumn(k: nat)
    requires k < |CsvColumns|
    ensures ',' !in CsvColumns[k]
  {
    var name := CsvColumns[k];
    forall i | 0 <= i < |name| ensures name[i] != ',' {
      assert 'a' <= name[i] <= 'z' || name[i] == '_';
    }
  }

  /**
   * A row reads back as six fields giving the vehicle, the two dates and the
   * three readings, provided neither the vehicle number nor the dates hold a
   * comma (the export does no quoting).
   */
  lemma CsvRowReadsBack(vehicle: string, info: Record)
    requires ',' !in vehicle && ',' !in info.lastServiceDate && ',' !in info.nextServiceDate
    ensures var fields := SplitCommas(CsvRow(vehicle, info));
            && |fields| == 6
            && fields[0] == vehicle && fields[1] == info.lastServiceDate && fields[4] == info.nextServiceDate
            && ParseInt(fields[2]) == Some(info.lastServiceKm)
            && ParseInt(fields[3]) == Some(info.currentKm)
            && ParseInt(fields[5]) == Some(info.nextServiceKm)
  {
    NoCommaInInt(info.lastServiceKm);
    NoCommaInInt(info.currentKm);
    NoCommaInInt(info.nextServiceKm);
    SplitJoin(CsvFields(vehicle, info));
    IntToStringRoundTrip(info.lastServiceKm);
    IntToStringRoundTrip(info.currentKm);
    IntToStringRoundTrip(info.nextServiceKm);
  }

  /** What pressing "Export as CSV" did. */
  datatype Export = NothingToExport | ExportCancelled | Exported(path: string, lines: seq<string>)

  /** One vehicle as the reminders view shows it. */
  datatype Reminder = Reminder(vehicle: string, info: Record, status: Status)

  /** What the reminders view shows. */
  datatype Listing =
    | NoVehicles                                      // "No vehicle data found. …"
    | Listed(entries: seq<Reminder>)
    | Interrupted(entries: seq<Reminder>, vehicle: string)  // `status_message` raised on `vehicle`

  function Vehicles(entries: seq<Reminder>): (vs: seq<string>)
    ensures |vs| == |entries|
    ensures forall j | 0 <= j < |entries| :: vs[j] == entries[j].vehicle
  {
    seq(|entries|, j requires 0 <= j < |entries| => entries[j].vehicle)
  }

  lemma PrefixSnoc(s: seq<string>, i: nat)
    requires i < |s|
    ensures s[..i + 1] == s[..i] + [s[i]]
  {
  }

  lemma VehiclesSnoc(entries: seq<Reminder>, e: Reminder)
    ensures Vehicles(entries + [e]) == Vehicles(entries) + [e.vehicle]
  {
  }

  /** `e` shows `d`'s record for its vehicle with that record's status at `now`. */
  predicate Shows(d: Dict, e: Reminder, now: Instant) {
    && e.vehicle in d.records
    && e.info == d.records[e.vehicle]
    && StatusMessage(e.info.nextServiceDate, e.info.nextServiceKm, e.info.currentKm, now) == Some(e.status)
  }

  /** Every key `display_reminders` visits is a vehicle of the store. */
  lemma SortedKeysInStore(d: Dict)
    requires d.Valid()
    ensures |SortedKeys(d.order)| == |d.order|
    ensures forall j | 0 <= j < |SortedKeys(d.order)| :: SortedKeys(d.order)[j] in d.records
  {
    var keys := SortedKeys(d.order);
    forall j | 0 <= j < |keys| ensures keys[j] in d.records {
      assert keys[j] in multiset(keys);
      assert keys[j] in multiset(d.order);
    }
  }

  /**
   * The loop of `display_reminders` over `keys`: each vehicle with its
   * status, stopping at the first whose due date does not parse.
   */
  method ListReminders(d: Dict, keys: seq<string>, now: Instant) returns (r: Listing)
    requires forall j | 0 <= j < |keys| :: keys[j] in d.records
    ensures r.Listed? || r.Interrupted?
    ensures r.Listed? ==> Vehicles(r.entries) == keys
    ensures r.Interrupted? ==>
              && |r.entries| < |keys|
              && Vehicles(r.entries) == keys[..|r.entries|]
              && r.vehicle == keys[|r.entries|]
              && ParseDate(d.records[r.vehicle].nextServiceDate).None?
    ensures forall j | 0 <= j < |r.entries| :: Shows(d, r.entries[j], now)
  {
    var entries := [];
    var i := 0;
    while i < |keys|
      invariant 0 <= i <= |keys|
      invariant Vehicles(entries) == keys[..i]
      invariant forall j | 0 <= j < i :: Shows(d, entries[j], now)
    {
      var v := keys[i];
      var info := d.records[v];
      var status := StatusMessage(info.nextServiceDate, info.nextServiceKm, info.currentKm, now);
      if status.None? {
        return Interrupted(entries, v);
      }
      VehiclesSnoc(entries, Reminder(v, info, status.value));
      PrefixSnoc(keys, i);
      entries := entries + [Reminder(v, info, status.value)];
      i := i + 1;
    }
    assert keys[..i] == keys;
    return Listed(entries);
  }

  /** What pressing "Restore JSON" did. */
  datatype Restore = RestoreCancelled | RestoreFailed | Restored

  /** The store `load_sample_data` writes, holding the two given records. */
  function SampleDict(first: Record, second: Record): (d: Dict)
    ensures d.Valid()
    ensures d.order == ["MH01AB1234", "DL8CAF0001"]
    ensures d.records == map["MH01AB1234" := first, "DL8CAF0001" := second]
  {
    assert "MH01AB1234" != "DL8CAF0001" by {
      assert "MH01AB1234"[0] != "DL8CAF0001"[0];
    }
    EmptyDict.Put("MH01AB1234", first).Put("DL8CAF0001", second)
  }

  /**
   * The two demonstration records, their due fields computed by the
   * calculator as the source does.
   */
  function SampleData(): (d: Dict)
    ensures d.Valid()
    ensures d == SampleDict(
              Record("2024-11-01", 12000, 21000, "2025-11-01", 22000),
              Record("2024-06-15", 45000, 54050, "2025-06-15", 55000))
  {
    NextServiceDateSampleNovember();
    NextServiceDateSampleJune();
    SampleDict(
      Record("2024-11-01", 12000, 21000, NextServiceDate("2024-11-01").value, NextServiceKm(12000)),
      Record("2024-06-15", 45000, 54050, NextServiceDate("2024-06-15").value, NextServiceKm(45000)))
  }

  /** The application's data file. */
  class VehicleStore {
    var data: Dict

    ghost predicate Valid()
      reads this
    {
      data.Valid()
    }

    /** A store whose file does not exist yet: `load_data` gives `{}`. */
    constructor ()
      ensures Valid() && data == EmptyDict
    {
      data := EmptyDict;
    }

    /** `add_vehicle`: checks the form, then writes one key. */
    method AddVehicle(vehicleNo: string, lastDate: string, lastKm: string, currentKm: string)
      returns (outcome: Outcome)
      requires Valid()
      modifies this
      ensures Valid()
      ensures var v, ld, lk, ck := Strip(vehicleNo), Strip(lastDate), Strip(lastKm), Strip(currentKm);
              if v == [] || ld == [] || lk == [] || ck == [] then
                outcome == MissingField && data == old(data)
              else match ServiceRecord(ld, lk, ck)
                case Success(rec) =>
                  && outcome == Added(rec.nextServiceDate, rec.nextServiceKm, rec.currentKm < rec.lastServiceKm)
                  && data == old(data).Put(v, rec)
                case Failure(f) =>
                  && outcome == Rejected(f, f == DateOverflow && ParseInt(ck).value < ParseInt(lk).value)
                  && data == old(data)
    {
      var v, ld, lk, ck := Strip(vehicleNo), Strip(lastDate), Strip(lastKm), Strip(currentKm);
      if v == [] || ld == [] || lk == [] || ck == [] {
        return MissingField;
      }
      var built := ServiceRecord(ld, lk, ck);
      match built {
        case Failure(f) =>
          var warned := f == DateOverflow && ParseInt(ck).value < ParseInt(lk).value;
          return Rejected(f, warned);
        case Success(rec) =>
          data := data.Put(v, rec);
          return Added(rec.nextServiceDate, rec.nextServiceKm, rec.currentKm < rec.lastServiceKm);
      }
    }

    /** `update_vehicle`: replaces all five fields of an existing key. */
    method UpdateVehicle(vehicleNo: string, newDate: string, newKm: string, currentKm: string)
      returns (outcome: Outcome)
      requires Valid()
      modifies this
      ensures Valid()
      ensures var v, ld, lk, ck := Strip(vehicleNo), Strip(newDate), Strip(newKm), Strip(currentKm);
              if v !in old(data.records) then
                outcome == NotFound && data == old(data)
              else match ServiceRecord(ld, lk, ck)
                case Success(rec) => outcome == Updated && data == old(data).Put(v, rec)
                case Failure(f) => outcome == Rejected(f, false) && data == old(data)
    {
      var v, ld, lk, ck := Strip(vehicleNo), Strip(newDate), Strip(newKm), Strip(currentKm);
      if v !in data.records {
        return NotFound;
      }
      var built := ServiceRecord(ld, lk, ck);
      match built {
        case Failure(f) =>
          return Rejected(f, false);
        case Success(rec) =>
          data := data.Put(v, rec);
          return Updated;
      }
    }

    /** `clear_data`: empties the store once the user confirms. */
    method ClearData(confirmed: bool) returns (cleared: bool)
      requires Valid()
      modifies this
      ensures Valid()
      ensures cleared == confirmed
      ensures data == if confirmed then EmptyDict else old(data)
    {
      if confirmed {
        data := EmptyDict;
      }
      cleared := confirmed;
    }

    /**
     * `restore_json`: `path` is the chosen file ("" when the dialog is
     * cancelled), `parsed` the members `json.load` read from it (`None` when it
     * raised).  The whole store is replaced, never merged.
     */
    method RestoreJson(path: string, parsed: Option<seq<(string, Record)>>) returns (r: Restore)
      requires Valid()
      modifies this
      ensures Valid()
      ensures path == "" ==> r == RestoreCancelled && data == old(data)
      ensures path != "" && parsed.None? ==> r == RestoreFailed && data == old(data)
      ensures path != "" && parsed.Some? ==> r == Restored && data == FromPairs(parsed.value)
    {
      if path == "" {
        return RestoreCancelled;
      }
      match parsed {
        case None =>
          return RestoreFailed;
        case Some(pairs) =>
          data := FromPairs(pairs);
          return Restored;
      }
    }

    /** `backup_json`: the members written to the chosen file, in dict order. */
    method BackupJson(path: string) returns (written: Option<seq<(string, Record)>>)
      requires Valid()
      ensures path == "" ==> written == None
      ensures path != "" ==> written.Some? && FromPairs(written.value) == data
    {
      if path == "" {
        return None;
      }
      FromPairsItems(data);
      return Some(data.Items());
    }

    /** `load_sample_data`: replaces the store with the two demonstration records. */
    method LoadSampleData()
      modifies this
      ensures Valid()
      ensures data == SampleData()
    {
      data := SampleData();
    }

    /**
     * `export_csv`: nothing when the store is empty or the dialog is
     * cancelled, otherwise the header and one row per vehicle in dict order.
     */
    method ExportCsv(path: string) returns (r: Export)
      requires Valid()
      ensures data.records == map[] ==> r == NothingToExport
      ensures data.records != map[] && path == "" ==> r == ExportCancelled
      ensures data.records != map[] && path != "" ==> r == Exported(path, CsvLines(data))
    {
      if data.records == map[] {
        return NothingToExport;
      }
      if path == "" {
        return ExportCancelled;
      }
      var rows := [];
      var i := 0;
      while i < |data.order|
        invariant 0 <= i <= |data.order|
        invariant |rows| == i
        invariant forall j | 0 <= j < i :: rows[j] == CsvRow(data.order[j], data.records[data.order[j]])
      {
        var v := data.order[i];
        rows := rows + [CsvRow(v, data.records[v])];
        i := i + 1;
      }
      assert rows == CsvRows(data);
      var lines := [CsvHeader] + rows;
      return Exported(path, lines);
    }

    /**
     * `display_reminders` at the instant `now`: every vehicle in sorted order
     * with its status, or the vehicles before the first one whose due date
     * `status_message` cannot parse.
     */
    method DisplayReminders(now: Instant) returns (r: Listing)
      requires Valid()
      ensures data.records == map[] <==> r == NoVehicles
      ensures r.Listed? ==> Vehicles(r.entries) == SortedKeys(data.order)
      ensures r.Interrupted? ==>
                && |r.entries| < |data.order|
                && Vehicles(r.entries) == SortedKeys(data.order)[..|r.entries|]
                && r.vehicle == SortedKeys(data.order)[|r.entries|]
                && r.vehicle in data.records
                && ParseDate(data.records[r.vehicle].nextServiceDate).None?
      ensures r.Listed? || r.Interrupted? ==> forall j | 0 <= j < |r.entries| :: Shows(data, r.entries[j], now)
    {
      if data.records == map[] {
        return NoVehicles;
      }
      SortedKeysInStore(data);
      r := ListReminders(data, SortedKeys(data.order), now);
    }
  }
}
