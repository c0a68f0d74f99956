/**
 * The default-MSISDN table: the CSV file `defaults.csv` mapping each IMSI to the default
 * MSISDN it was once given. `ReadDefaults` folds the stored rows into a map and a high
 * watermark; a `DefaultsTable` then hands out numbers for one run, appending a row to the
 * file for every number it issues.
 */
module Defaults {
  import opened Common
  import Decimal

  /** The watermark before any row is read: no issued number is at or below it. */
  const Floor: nat := 90400000
  /** Every issued number is strictly below this. */
  const Ceiling: nat := 90500000

  /** One row of the defaults table. */
  datatype DefaultsRecord = DefaultsRecord(imsi: string, defaultMsisdn: nat)

  function Max(a: nat, b: nat): nat
  {
    if a < b then b else a
  }

  /** The map that loading `rows` in order builds: a later row for an IMSI replaces an earlier one. */
  function LoadedMap(rows: seq<DefaultsRecord>): map<string, nat>
    decreases |rows|
  {
    if rows == [] then map[]
    else
      var last := rows[|rows| - 1];
      LoadedMap(rows[..|rows| - 1])[last.imsi := last.defaultMsisdn]
  }

  /** The watermark that loading `rows` in order leaves. */
  function Watermark(rows: seq<DefaultsRecord>): nat
    decreases |rows|
  {
    if rows == [] then Floor
    else Max(Watermark(rows[..|rows| - 1]), rows[|rows| - 1].defaultMsisdn)
  }

  /** The IMSIs that occur in `rows`. */
  function ImsiSet(rows: seq<DefaultsRecord>): set<string>
  {
    set i | 0 <= i < |rows| :: rows[i].imsi
  }

  /** The watermark is the largest of the floor and every stored number. */
  lemma {:induction false} WatermarkIsMaximum(rows: seq<DefaultsRecord>)
    ensures Watermark(rows) >= Floor
    ensures forall i :: 0 <= i < |rows| ==> rows[i].defaultMsisdn <= Watermark(rows)
    ensures Watermark(rows) == Floor
            || exists i :: 0 <= i < |rows| && rows[i].defaultMsisdn == Watermark(rows)
    decreases |rows|
  {
    if rows != [] {
      var init := rows[..|rows| - 1];
      WatermarkIsMaximum(init);
      assert forall i :: 0 <= i < |init| ==> rows[i] == init[i];
      if Watermark(rows) != Floor && Watermark(rows) != Watermark(init) {
        assert rows[|rows| - 1].defaultMsisdn == Watermark(rows);
      }
    }
  }

  /** Every number in the loaded map is at or below the watermark. */
  lemma {:induction false} LoadedBelowWatermark(rows: seq<DefaultsRecord>)
    ensures forall k :: k in LoadedMap(rows) ==> LoadedMap(rows)[k] <= Watermark(rows)
    decreases |rows|
  {
    if rows != [] {
      LoadedBelowWatermark(rows[..|rows| - 1]);
    }
  }

  /** The keys of the loaded map are exactly the IMSIs of the stored rows. */
  lemma {:induction false} LoadedMapKeys(rows: seq<DefaultsRecord>)
    ensures LoadedMap(rows).Keys == ImsiSet(rows)
    decreases |rows|
  {
    if rows != [] {
      var init := rows[..|rows| - 1];
      LoadedMapKeys(init);
      assert forall i :: 0 <= i < |init| ==> rows[i] == init[i];
      assert ImsiSet(rows) == ImsiSet(init) + {rows[|rows| - 1].imsi};
    }
  }

  /** For an IMSI stored more than once, the last of its rows wins. */
  lemma {:induction false} LastRowWins(rows: seq<DefaultsRecord>, i: nat)
    requires i < |rows|
    requires forall j :: i < j < |rows| ==> rows[j].imsi != rows[i].imsi
    ensures rows[i].imsi in LoadedMap(rows)
    ensures LoadedMap(rows)[rows[i].imsi] == rows[i].defaultMsisdn
    decreases |rows|
  {
    if i < |rows| - 1 {
      var init := rows[..|rows| - 1];
      assert forall j :: i < j < |init| ==> init[j] == rows[j];
      LastRowWins(init, i);
    }
  }

  lemma ImsiSetConcat(a: seq<DefaultsRecord>, b: seq<DefaultsRecord>)
    ensures ImsiSet(a + b) == ImsiSet(a) + ImsiSet(b)
  {
    var ab := a + b;
    forall k | k in ImsiSet(a) + ImsiSet(b) ensures k in ImsiSet(ab) {
      if k in ImsiSet(a) {
        var i :| 0 <= i < |a| && a[i].imsi == k;
        assert ab[i].imsi == k;
      } else {
        var i :| 0 <= i < |b| && b[i].imsi == k;
        assert ab[|a| + i].imsi == k;
      }
    }
  }

  lemma LoadedMapSnoc(rows: seq<DefaultsRecord>, r: DefaultsRecord)
    ensures LoadedMap(rows + [r]) == LoadedMap(rows)[r.imsi := r.defaultMsisdn]
  {
    assert (rows + [r])[..|rows|] == rows;
  }

  /**
   * Loading the table again after a run, with the rows the run appended, knows every IMSI
   * the run allocated for, and its watermark is at or above every number the run issued:
   * for a defaults file that begins with its header line, a later run never issues those
   * numbers again.
   */
  lemma ReloadCoversLog(stored: seq<DefaultsRecord>, log: seq<DefaultsRecord>)
    ensures LoadedMap(stored + log).Keys == LoadedMap(stored).Keys + LoadedMap(log).Keys
    ensures forall i :: 0 <= i < |log| ==> log[i].defaultMsisdn <= Watermark(stored + log)
    ensures Watermark(stored) <= Watermark(stored + log)
  {
    LoadedMapKeys(stored + log);
    LoadedMapKeys(stored);
    LoadedMapKeys(log);
    ImsiSetConcat(stored, log);
    WatermarkIsMaximum(stored + log);
    WatermarkIsMaximum(stored);
    forall i | 0 <= i < |log| ensures log[i].defaultMsisdn <= Watermark(stored + log) {
      assert (stored + log)[|stored| + i] == log[i];
    }
    if Watermark(stored) != Floor {
      var i :| 0 <= i < |stored| && stored[i].defaultMsisdn == Watermark(stored);
      assert (stored + log)[i] == stored[i];
    }
  }

  /**
   * For a defaults file that begins with its header line, a fresh IMSI never gets a number
   * issued before: after reloading the stored and appended rows, the next allocation is
   * above every one of them.
   */
  lemma NoReissueAfterReload(stored: seq<DefaultsRecord>, log: seq<DefaultsRecord>, imsi: string)
    ensures var rows := stored + log;
            var a := Allocation(LoadedMap(rows), Watermark(rows), imsi);
            imsi !in LoadedMap(rows) && a.Ok? ==>
              && (forall i :: 0 <= i < |stored| ==> stored[i].defaultMsisdn < a.value)
              && (forall i :: 0 <= i < |log| ==> log[i].defaultMsisdn < a.value)
  {
    var rows := stored + log;
    ReloadCoversLog(stored, log);
    WatermarkIsMaximum(rows);
    forall i | 0 <= i < |stored| ensures stored[i].defaultMsisdn <= Watermark(rows) {
      assert rows[i] == stored[i];
    }
  }

  /**
   * What `read_defaults` makes of a defaults file that holds only the data rows `lines`,
   * without the `IMSI,DefaultMSISDN` header line: the CSV reader takes the first line as
   * the header, and as that line names no field of a row, every further line fails to
   * deserialize.
   */
  function HeaderlessLoad(lines: seq<DefaultsRecord>): Result<Loaded>
  {
    if |lines| <= 1 then Ok(Loaded(map[], Floor)) else Err(DefaultsMalformed)
  }

  /**
   * A defaults file created empty: the first run issues 90400001 and appends its row with no
   * header before it; the next run reads that row as the header, loads nothing, and issues
   * 90400001 again to the next new IMSI.
   */
  lemma HeaderlessReloadReissues()
    ensures LoadedMap([]) == map[] && Watermark([]) == Floor
    ensures Allocation(map[], Floor, "A") == Ok(Floor + 1)
    ensures HeaderlessLoad([DefaultsRecord("A", Floor + 1)]) == Ok(Loaded(map[], Floor))
    ensures Allocation(map[], Floor, "B") == Ok(Floor + 1)
  {
  }

  /** What `read_defaults` returns: the map and the latest default number observed. */
  datatype Loaded = Loaded(imsis: map<string, nat>, biggest: nat)

  /**
   * Reads the stored rows in order; the first row that does not deserialize ends the run.
   */
  method ReadDefaults(rows: seq<Parsed<DefaultsRecord>>) returns (r: Result<Loaded>)
    ensures r.Ok? <==> AllParsed(rows)
    ensures r.Err? ==> r.error == DefaultsMalformed
    ensures r.Ok? ==> r.value.imsis == LoadedMap(Values(rows))
                      && r.value.biggest == Watermark(Values(rows))
  {
    var imsis: map<string, nat> := map[];
    var biggest: nat := Floor;
    var i := 0;
    while i < |rows|
      invariant 0 <= i <= |rows|
      invariant AllParsed(rows[..i])
      invariant imsis == LoadedMap(Values(rows[..i]))
      invariant biggest == Watermark(Values(rows[..i]))
    {
      match rows[i]
      case Malformed =>
        return Err(DefaultsMalformed);
      case Row(record) =>
        assert Values(rows[..i + 1])[..i] == Values(rows[..i]);
        imsis := imsis[record.imsi := record.defaultMsisdn];
        biggest := Max(biggest, record.defaultMsisdn);
      i := i + 1;
    }
    assert rows[..i] == rows;
    r := Ok(Loaded(imsis, biggest));
  }

  /** The line written to the defaults file for a newly issued number: `imsi,n` and a newline. */
  function RowText(r: DefaultsRecord): string
  {
    r.imsi + "," + Decimal.Show(r.defaultMsisdn) + "\n"
  }

  /** The text a sequence of rows adds to the defaults file. */
  function LogText(rows: seq<DefaultsRecord>): string
    decreases |rows|
  {
    if rows == [] then "" else LogText(rows[..|rows| - 1]) + RowText(rows[|rows| - 1])
  }

  lemma LogTextAppend(rows: seq<DefaultsRecord>, r: DefaultsRecord)
    ensures LogText(rows + [r]) == LogText(rows) + RowText(r)
  {
    assert (rows + [r])[..|rows|] == rows;
  }

  /**
   * A written row reads back as the row that was written: the text before the first comma
   * is the IMSI, and the digits between it and the closing newline are the number.
   */
  lemma RowTextReadsBack(r: DefaultsRecord)
    requires ',' !in r.imsi
    ensures var t := RowText(r);
            && t[|r.imsi|] == ',' && t[..|r.imsi|] == r.imsi
            && t[|t| - 1] == '\n'
            && Decimal.AllDigits(t[|r.imsi| + 1..|t| - 1])
            && Decimal.Parse(t[|r.imsi| + 1..|t| - 1]) == r.defaultMsisdn
  {
    var t := RowText(r);
    assert t[|r.imsi| + 1..|t| - 1] == Decimal.Show(r.defaultMsisdn);
    Decimal.ParseShow(r.defaultMsisdn);
  }

  /**
   * The get-or-allocate rule: a known IMSI keeps its stored number; an unknown one gets
   * one more than the watermark, provided that stays below the ceiling. The increment is
   * taken on unbounded integers, the behaviour of an overflow-checked build.
   */
  function Allocation(imsis: map<string, nat>, latest: nat, imsi: string): Result<nat>
  {
    if imsi in imsis then Ok(imsis[imsi])
    else if latest + 1 < Ceiling then Ok(latest + 1)
    else Err(CeilingExceeded)
  }

  const U64Limit: nat := 0x1_0000_0000_0000_0000

  /**
   * The allocation for an unknown IMSI as a release build runs it: `latest_default += 1`
   * on a `u64` wraps around instead of panicking, and the wrapped value reaches the
   * ceiling assertion.
   */
  function WrappingAllocation(latest: nat): Result<nat>
    requires latest < U64Limit
  {
    var next := (latest + 1) % U64Limit;
    if next < Ceiling then Ok(next) else Err(CeilingExceeded)
  }

  /**
   * A stored number of 18446744073709551615 makes the release build issue 0, which is below
   * the floor and not above the watermark; the checked rule refuses the same allocation.
   */
  lemma WrapAroundIssuesZero()
    ensures WrappingAllocation(U64Limit - 1) == Ok(0)
    ensures 0 < Floor < U64Limit - 1
    ensures Allocation(map[], U64Limit - 1, "") == Err(CeilingExceeded)
  {
  }

  /**
   * Every row of `log` is for an IMSI without a stored number and carries a number above
   * `watermark` and below the ceiling.
   */
  predicate FreshRows(log: seq<DefaultsRecord>, imsis: map<string, nat>, watermark: nat)
  {
    forall i :: 0 <= i < |log| ==>
      && log[i].imsi !in imsis
      && watermark < log[i].defaultMsisdn < Ceiling
  }

  /** The numbers of `log` strictly increase. */
  predicate Increasing(log: seq<DefaultsRecord>)
  {
    forall i, j :: 0 <= i < j < |log| ==> log[i].defaultMsisdn < log[j].defaultMsisdn
  }

  /**
   * The table a run allocates from. The map is bound once, when the table is loaded, and
   * never written again: an IMSI that is not in it gets a fresh number every time it is
   * asked for, however often it occurs in one run.
   */
  class DefaultsTable {
    const imsis: map<string, nat>
    /** The watermark `read_defaults` returned. */
    ghost const loadedWatermark: nat
    var latestDefault: nat
    var cntNewDefault: nat
    /** The rows appended to the defaults file during this run, in order. */
    var appended: seq<DefaultsRecord>

    ghost predicate Valid()
      reads this
    {
      && Floor <= loadedWatermark <= latestDefault
      && (forall k :: k in imsis ==> imsis[k] <= loadedWatermark)
      && cntNewDefault == |appended|
      && FreshRows(appended, imsis, loadedWatermark)
      && (forall i :: 0 <= i < |appended| ==> appended[i].defaultMsisdn <= latestDefault)
      && Increasing(appended)
    }

    constructor (imsis: map<string, nat>, biggest: nat)
      requires Floor <= biggest
      requires forall k :: k in imsis ==> imsis[k] <= biggest
      ensures Valid()
      ensures this.imsis == imsis && loadedWatermark == biggest && latestDefault == biggest
      ensures cntNewDefault == 0 && appended == []
    {
      this.imsis := imsis;
      loadedWatermark := biggest;
      latestDefault := biggest;
      cntNewDefault := 0;
      appended := [];
    }

    /** The text this run has added to the defaults file. */
    ghost function FileText(): string
      reads this
    {
      LogText(appended)
    }

    /** How one allocation for `imsi` with result `r` moves the table from the given earlier state. */
    ghost predicate AllocationStep(latest0: nat, cnt0: nat, log0: seq<DefaultsRecord>, imsi: string, r: Result<nat>)
      reads this
    {
      && latestDefault == (if imsi in imsis then latest0 else latest0 + 1)
      && appended == (if imsi !in imsis && r.Ok? then log0 + [DefaultsRecord(imsi, r.value)] else log0)
      && cntNewDefault == cnt0 + |appended| - |log0|
    }

    method GetOrAllocate(imsi: string) returns (r: Result<nat>)
      requires Valid()
      modifies this
      ensures Valid()
      ensures r == Allocation(imsis, old(latestDefault), imsi)
      ensures AllocationStep(old(latestDefault), old(cntNewDefault), old(appended), imsi, r)
      ensures imsi in imsis ==> r == Ok(imsis[imsi]) && appended == old(appended)
      ensures imsi !in imsis && r.Ok? ==>
                && Floor < r.value < Ceiling
                && r.value == latestDefault > old(latestDefault)
                && (forall k :: k in imsis ==> imsis[k] < r.value)
                && (forall i :: 0 <= i < |old(appended)| ==> old(appended)[i].defaultMsisdn < r.value)
                && FileText() == old(FileText()) + RowText(DefaultsRecord(imsi, r.value))
      ensures r.Err? ==> r.error == CeilingExceeded && appended == old(appended)
    {
      if imsi in imsis {
        r := Ok(imsis[imsi]);
      } else {
        latestDefault := latestDefault + 1;
        if !(latestDefault < Ceiling) {
          return Err(CeilingExceeded);
        }
        r := Ok(latestDefault);
        LogTextAppend(appended, DefaultsRecord(imsi, latestDefault));
        appended := appended + [DefaultsRecord(imsi, latestDefault)];
        cntNewDefault := cntNewDefault + 1;
      }
    }
  }
}
