/**
 * The import loop of `main`: for every record of every input file, in order, get or
 * allocate its default MSISDN, ask the registry whether the subscriber exists, and if it
 * does not, create it, set its MSISDN and install its keys, stopping the whole run at the
 * first failure.
 */
module Import {
  import opened Common
  import opened Defaults
  import opened Hlr

  /** One row of an input file. */
  datatype KeysRecord = KeysRecord(imsi: string, ki: string, opc: string)

  /** The acknowledgements the three provisioning commands must get, in order. */
  const Acks: seq<Ack> := [Created, Updated, Silent]

  /** The three commands that provision an absent subscriber with default number `msisdn`, in order. */
  function ProvisionCommands(rec: KeysRecord, msisdn: nat): seq<Command>
  {
    [ CreateSubscriber(rec.imsi),
      UpdateMsisdn(rec.imsi, msisdn),
      UpdateAud3g(rec.imsi, rec.ki, rec.opc) ]
  }

  /** How many of the three provisioning commands are sent when `k` are accepted: up to the first rejected one. */
  function Attempted(k: nat): nat
  {
    if k < 3 then k + 1 else 3
  }

  /** What the registry half of one record sends and how it ends. */
  datatype Transcript = Transcript(sent: seq<Command>, out: Outcome, provisioned: bool)

  /**
   * The registry half of one record, for a record allocated default number `msisdn`, when
   * the next response of the registry is the one at position `from`: the existence check,
   * then, only for an absent subscriber, the three provisioning commands up to the first
   * one whose response is not accepted.
   */
  function RegistryHalf(readings: seq<Reading>, from: nat, rec: KeysRecord, msisdn: nat): Transcript
  {
    var shown := ShowAt(readings, from);
    if shown.Err? then Transcript([ShowSubscriber(rec.imsi)], Fail(shown.error), false)
    else if !shown.value then Transcript([ShowSubscriber(rec.imsi)], Pass, false)
    else
      var k := LeadingAccepted(readings, from + 1, Acks);
      Transcript([ShowSubscriber(rec.imsi)] + ProvisionCommands(rec, msisdn)[..Attempted(k)],
                 if k == 3 then Pass else AckAt(readings, from + 1 + k, Acks[k]),
                 k == 3)
  }

  /** Every well-formed record of `records` has a stored default. */
  predicate AllStored(records: seq<Parsed<KeysRecord>>, imsis: map<string, nat>)
  {
    forall i :: 0 <= i < |records| && records[i].Row? ==> records[i].value.imsi in imsis
  }

  /**
   * The registry half sends the existence check first and then a prefix of the three
   * provisioning commands; the subscriber counts as provisioned iff all of them were sent
   * and the last was accepted; a run that goes on sent either the check alone or all four.
   */
  lemma RegistryHalfSends(readings: seq<Reading>, from: nat, rec: KeysRecord, msisdn: nat)
    ensures var t := RegistryHalf(readings, from, rec, msisdn);
            && 1 <= |t.sent| <= 4
            && t.sent[0] == ShowSubscriber(rec.imsi)
            && t.sent[1..] == ProvisionCommands(rec, msisdn)[..|t.sent| - 1]
            && (t.provisioned <==> |t.sent| == 4 && t.out == Pass)
            && (t.out == Pass ==> |t.sent| == 1 || |t.sent| == 4)
  {
  }

  /**
   * The subscriber is provisioned iff the registry reports it absent and accepts all three
   * provisioning commands.
   */
  lemma ProvisionedIffAllAccepted(readings: seq<Reading>, from: nat, rec: KeysRecord, msisdn: nat)
    ensures RegistryHalf(readings, from, rec, msisdn).provisioned <==>
              && ShowAt(readings, from) == Ok(true)
              && forall i :: 0 <= i < 3 ==> AckAt(readings, from + 1 + i, Acks[i]) == Pass
  {
    if ShowAt(readings, from) == Ok(true) && LeadingAccepted(readings, from + 1, Acks) == 3 {
      forall i | 0 <= i < 3
        ensures AckAt(readings, from + 1 + i, Acks[i]) == Pass
      {
        AcceptedBefore(readings, from + 1, Acks, i);
      }
    }
  }

  /**
   * The registry half of a run against `responses` fails only on what the registry says
   * or does not say: a missing prompt, a response too short to judge, or one it rejects.
   */
  lemma RegistryFailureKind(responses: seq<string>, readings: seq<Reading>, from: nat, rec: KeysRecord, msisdn: nat)
    requires ReadsAs(responses, readings)
    ensures var t := RegistryHalf(readings, from, rec, msisdn);
            t.out.Fail? ==> t.out.error.Timeout? || t.out.error.ShortResponse? || t.out.error.BadResponse?
  {
    var shown := ShowAt(readings, from);
    ReadingErrors(responses, readings, from, Silent);
    if shown.Ok? && shown.value {
      var k := LeadingAccepted(readings, from + 1, Acks);
      if k < 3 {
        ReadingErrors(responses, readings, from + 1 + k, Acks[k]);
      }
    }
  }

  /** A registry that never reports a subscriber absent gets nothing provisioned. */
  lemma QuietRegistry(readings: seq<Reading>, from: nat, rec: KeysRecord, msisdn: nat)
    requires NoneAbsent(readings)
    ensures !RegistryHalf(readings, from, rec, msisdn).provisioned
  {
  }

  /**
   * The state of a run between two records: how it stands, `latest_default`, the rows
   * appended to the defaults file, the position of the registry's next answer, the
   * commands sent, and `cnt_new_hlr`.
   */
  datatype Progress = Progress(out: Outcome, latest: nat, log: seq<DefaultsRecord>, next: nat,
                               sent: seq<Command>, added: nat)

  /**
   * One record, imported from state `p` against a table loaded as `imsis` and a registry
   * read as `readings`: allocate, then, if that succeeds, the registry half with the
   * allocated number.
   */
  function RecordStep(imsis: map<string, nat>, readings: seq<Reading>, p: Progress, rec: KeysRecord): Progress
  {
    var a := Allocation(imsis, p.latest, rec.imsi);
    var latest := if rec.imsi in imsis then p.latest else p.latest + 1;
    if a.Err? then p.(out := Fail(a.error), latest := latest)
    else
      var log := if rec.imsi in imsis then p.log else p.log + [DefaultsRecord(rec.imsi, a.value)];
      var t := RegistryHalf(readings, p.next, rec, a.value);
      Progress(t.out, latest, log, Advance(p.next, |t.sent|, |readings|), p.sent + t.sent,
               p.added + (if t.provisioned then 1 else 0))
  }

  /**
   * The reference run over the records of one file: in order, from the first, and once
   * the run has failed nothing more happens. A row that did not deserialize fails it.
   */
  function FileRun(imsis: map<string, nat>, readings: seq<Reading>, p: Progress, records: seq<Parsed<KeysRecord>>): Progress
    decreases |records|
  {
    if records == [] || p.out.Fail? then p
    else if records[0].Malformed? then p.(out := Fail(InputMalformed))
    else FileRun(imsis, readings, RecordStep(imsis, readings, p, records[0].value), records[1..])
  }

  /** The reference run over the input files, in order, stopping at the first failure. */
  function FilesRun(imsis: map<string, nat>, readings: seq<Reading>, p: Progress, files: seq<seq<Parsed<KeysRecord>>>): Progress
    decreases |files|
  {
    if files == [] || p.out.Fail? then p
    else FilesRun(imsis, readings, FileRun(imsis, readings, p, files[0]), files[1..])
  }

  /** The records of all the files, one file after the other. */
  function Flatten(files: seq<seq<Parsed<KeysRecord>>>): seq<Parsed<KeysRecord>>
    decreases |files|
  {
    if files == [] then [] else files[0] + Flatten(files[1..])
  }

  /** A failed run stays as it is, whatever records follow. */
  lemma FailedRunIsFinal(imsis: map<string, nat>, readings: seq<Reading>, p: Progress, records: seq<Parsed<KeysRecord>>)
    requires p.out.Fail?
    ensures FileRun(imsis, readings, p, records) == p
  {
  }

  /** The run from record `i` on: a malformed row fails it, a well-formed one is imported first. */
  lemma RunFrom(imsis: map<string, nat>, readings: seq<Reading>, p: Progress, records: seq<Parsed<KeysRecord>>, i: nat)
    requires p.out.Pass? && i < |records|
    ensures FileRun(imsis, readings, p, records[i..])
            == if records[i].Malformed? then p.(out := Fail(InputMalformed))
               else FileRun(imsis, readings, RecordStep(imsis, readings, p, records[i].value), records[i + 1..])
  {
    assert records[i..][1..] == records[i + 1..];
  }

  /** The run from file `f` on: that file's records first, then, if they succeeded, the rest. */
  lemma FilesRunFrom(imsis: map<string, nat>, readings: seq<Reading>, p: Progress, files: seq<seq<Parsed<KeysRecord>>>, f: nat)
    requires p.out.Pass? && f < |files|
    ensures FilesRun(imsis, readings, p, files[f..])
            == FilesRun(imsis, readings, FileRun(imsis, readings, p, files[f]), files[f + 1..])
  {
    assert files[f..][1..] == files[f + 1..];
  }

  /** Running two stretches of records one after the other is running them together. */
  lemma {:induction false} RunConcat(imsis: map<string, nat>, readings: seq<Reading>, p: Progress,
                                     a: seq<Parsed<KeysRecord>>, b: seq<Parsed<KeysRecord>>)
    ensures FileRun(imsis, readings, p, a + b) == FileRun(imsis, readings, FileRun(imsis, readings, p, a), b)
    decreases |a|
  {
    if a == [] {
      assert a + b == b;
    } else if p.out.Fail? {
      FailedRunIsFinal(imsis, readings, p, b);
    } else {
      assert (a + b)[0] == a[0] && (a + b)[1..] == a[1..] + b;
      if a[0].Row? {
        RunConcat(imsis, readings, RecordStep(imsis, readings, p, a[0].value), a[1..], b);
      }
    }
  }

  /**
   * After the record that fails, nothing further is allocated, appended, sent or counted:
   * the run over any longer input ends exactly where the run over the prefix failed.
   */
  lemma FailureStopsRun(imsis: map<string, nat>, readings: seq<Reading>, p: Progress,
                        a: seq<Parsed<KeysRecord>>, b: seq<Parsed<KeysRecord>>)
    requires FileRun(imsis, readings, p, a).out.Fail?
    ensures FileRun(imsis, readings, p, a + b) == FileRun(imsis, readings, p, a)
  {
    RunConcat(imsis, readings, p, a, b);
  }

  /**
   * Records are taken in order: the run over `records` and one more record is the run over
   * `records`, followed, if that succeeded, by importing the new record.
   */
  lemma RunSnoc(imsis: map<string, nat>, readings: seq<Reading>, p: Progress,
                records: seq<Parsed<KeysRecord>>, rec: KeysRecord)
    ensures var q := FileRun(imsis, readings, p, records);
            FileRun(imsis, readings, p, records + [Row(rec)])
              == if q.out.Pass? then RecordStep(imsis, readings, q, rec) else q
  {
    RunConcat(imsis, readings, p, records, [Row(rec)]);
  }

  /** Importing file after file is importing all their records as one file. */
  lemma {:induction false} FilesRunFlattens(imsis: map<string, nat>, readings: seq<Reading>, p: Progress,
                                            files: seq<seq<Parsed<KeysRecord>>>)
    ensures FilesRun(imsis, readings, p, files) == FileRun(imsis, readings, p, Flatten(files))
    decreases |files|
  {
    if files == [] {
    } else if p.out.Fail? {
      FailedRunIsFinal(imsis, readings, p, Flatten(files));
    } else {
      FilesRunFlattens(imsis, readings, FileRun(imsis, readings, p, files[0]), files[1..]);
      RunConcat(imsis, readings, p, files[0], Flatten(files[1..]));
    }
  }

  /** The run only adds: the rows appended and the commands sent extend those before it. */
  lemma {:induction false} RunExtends(imsis: map<string, nat>, readings: seq<Reading>, p: Progress,
                                      records: seq<Parsed<KeysRecord>>)
    ensures var q := FileRun(imsis, readings, p, records);
            && |p.log| <= |q.log| && q.log[..|p.log|] == p.log
            && |p.sent| <= |q.sent| && q.sent[..|p.sent|] == p.sent
            && p.added <= q.added
    decreases |records|
  {
    if records != [] && p.out.Pass? && records[0].Row? {
      var p' := RecordStep(imsis, readings, p, records[0].value);
      RunExtends(imsis, readings, p', records[1..]);
      var q := FileRun(imsis, readings, p, records);
      assert q.log[..|p'.log|][..|p.log|] == q.log[..|p.log|];
      assert q.sent[..|p'.sent|][..|p.sent|] == q.sent[..|p.sent|];
    }
  }

  /** The first `n` files are well-formed and every IMSI in them is in `known`. */
  ghost predicate FilesCovered(files: seq<seq<Parsed<KeysRecord>>>, n: nat, known: set<string>)
    requires n <= |files|
  {
    forall f, i :: 0 <= f < n && 0 <= i < |files[f]| ==> files[f][i].Row? && files[f][i].value.imsi in known
  }

  /** The IMSIs with a number, for a table loaded as `imsis` to which the rows `log` were appended. */
  function KnownAfter(imsis: map<string, nat>, log: seq<DefaultsRecord>): set<string>
  {
    imsis.Keys + LoadedMap(log).Keys
  }

  /**
   * What one record does: it fails only on the ceiling or the registry; a success leaves
   * its IMSI with a number; an IMSI that had one keeps it; a stored IMSI appends nothing;
   * a registry that never reports absence provisions nothing.
   */
  lemma StepFacts(imsis: map<string, nat>, responses: seq<string>, readings: seq<Reading>, p: Progress, rec: KeysRecord)
    requires ReadsAs(responses, readings)
    ensures var q := RecordStep(imsis, readings, p, rec);
            && (q.out.Fail? ==> q.out.error.CeilingExceeded? || q.out.error.Timeout?
                                || q.out.error.ShortResponse? || q.out.error.BadResponse?)
            && (q.out.Pass? ==> rec.imsi in KnownAfter(imsis, q.log))
            && KnownAfter(imsis, p.log) <= KnownAfter(imsis, q.log)
            && (rec.imsi in imsis ==> q.log == p.log)
            && (NoneAbsent(readings) ==> q.added == p.added)
  {
    var a := Allocation(imsis, p.latest, rec.imsi);
    if a.Ok? {
      RegistryFailureKind(responses, readings, p.next, rec, a.value);
      if NoneAbsent(readings) {
        QuietRegistry(readings, p.next, rec, a.value);
      }
      if rec.imsi !in imsis {
        LoadedMapSnoc(p.log, DefaultsRecord(rec.imsi, a.value));
      }
    }
  }

  /** The run over one file fails only on a malformed row, the ceiling or the registry. */
  lemma {:induction false} RunFailureKind(imsis: map<string, nat>, responses: seq<string>, readings: seq<Reading>,
                                          p: Progress, records: seq<Parsed<KeysRecord>>)
    requires ReadsAs(responses, readings) && p.out.Pass?
    ensures var q := FileRun(imsis, readings, p, records);
            q.out.Fail? ==> q.out.error != DefaultsMalformed
    decreases |records|
  {
    if records != [] && records[0].Row? {
      var p' := RecordStep(imsis, readings, p, records[0].value);
      StepFacts(imsis, responses, readings, p, records[0].value);
      if p'.out.Pass? {
        RunFailureKind(imsis, responses, readings, p', records[1..]);
      }
    }
  }

  /** Over the run of one file, IMSIs that had a number keep it. */
  lemma {:induction false} RunKeepsKnown(imsis: map<string, nat>, responses: seq<string>, readings: seq<Reading>,
                                         p: Progress, records: seq<Parsed<KeysRecord>>)
    requires ReadsAs(responses, readings) && p.out.Pass?
    ensures KnownAfter(imsis, p.log) <= KnownAfter(imsis, FileRun(imsis, readings, p, records).log)
    decreases |records|
  {
    if records != [] && records[0].Row? {
      var p' := RecordStep(imsis, readings, p, records[0].value);
      StepFacts(imsis, responses, readings, p, records[0].value);
      if p'.out.Pass? {
        RunKeepsKnown(imsis, responses, readings, p', records[1..]);
      }
    }
  }

  /** When the run over one file completes, the file is well-formed and every IMSI in it has a number. */
  lemma {:induction false} RunCovers(imsis: map<string, nat>, responses: seq<string>, readings: seq<Reading>,
                                     p: Progress, records: seq<Parsed<KeysRecord>>)
    requires ReadsAs(responses, readings) && p.out.Pass?
    ensures var q := FileRun(imsis, readings, p, records);
            q.out.Pass? ==> forall i :: 0 <= i < |records| ==>
                              records[i].Row? && records[i].value.imsi in KnownAfter(imsis, q.log)
    decreases |records|
  {
    if records != [] && records[0].Row? {
      var p' := RecordStep(imsis, readings, p, records[0].value);
      StepFacts(imsis, responses, readings, p, records[0].value);
      if p'.out.Pass? {
        var rest := records[1..];
        var q := FileRun(imsis, readings, p', rest);
        RunCovers(imsis, responses, readings, p', rest);
        RunKeepsKnown(imsis, responses, readings, p', rest);
        if q.out.Pass? {
          forall i | 0 <= i < |records|
            ensures records[i].Row? && records[i].value.imsi in KnownAfter(imsis, q.log)
          {
            if i > 0 {
              assert records[i] == rest[i - 1];
            }
          }
        }
      }
    }
  }

  /** A file whose IMSIs are all stored appends nothing. */
  lemma {:induction false} RunStored(imsis: map<string, nat>, responses: seq<string>, readings: seq<Reading>,
                                     p: Progress, records: seq<Parsed<KeysRecord>>)
    requires ReadsAs(responses, readings) && p.out.Pass?
    requires AllStored(records, imsis)
    ensures FileRun(imsis, readings, p, records).log == p.log
    decreases |records|
  {
    if records != [] && records[0].Row? {
      var p' := RecordStep(imsis, readings, p, records[0].value);
      StepFacts(imsis, responses, readings, p, records[0].value);
      if p'.out.Pass? {
        var rest := records[1..];
        assert forall i :: 0 <= i < |rest| ==> rest[i] == records[i + 1];
        RunStored(imsis, responses, readings, p', rest);
      }
    }
  }

  /** A registry that never reports a subscriber absent gets nothing provisioned by a file. */
  lemma {:induction false} RunQuiet(imsis: map<string, nat>, responses: seq<string>, readings: seq<Reading>,
                                    p: Progress, records: seq<Parsed<KeysRecord>>)
    requires ReadsAs(responses, readings) && p.out.Pass?
    requires NoneAbsent(readings)
    ensures FileRun(imsis, readings, p, records).added == p.added
    decreases |records|
  {
    if records != [] && records[0].Row? {
      var p' := RecordStep(imsis, readings, p, records[0].value);
      StepFacts(imsis, responses, readings, p, records[0].value);
      if p'.out.Pass? {
        RunQuiet(imsis, responses, readings, p', records[1..]);
      }
    }
  }

  /** What the run over one file does, from a state that has not failed. */
  lemma RunFacts(imsis: map<string, nat>, responses: seq<string>, readings: seq<Reading>,
                 p: Progress, records: seq<Parsed<KeysRecord>>)
    requires ReadsAs(responses, readings) && p.out.Pass?
    ensures var q := FileRun(imsis, readings, p, records);
            && (q.out.Fail? ==> q.out.error != DefaultsMalformed)
            && (q.out.Pass? ==> forall i :: 0 <= i < |records| ==>
                                  records[i].Row? && records[i].value.imsi in KnownAfter(imsis, q.log))
            && KnownAfter(imsis, p.log) <= KnownAfter(imsis, q.log)
            && (AllStored(records, imsis) ==> q.log == p.log)
            && (NoneAbsent(readings) ==> q.added == p.added)
  {
    RunFailureKind(imsis, responses, readings, p, records);
    RunKeepsKnown(imsis, responses, readings, p, records);
    RunCovers(imsis, responses, readings, p, records);
    if AllStored(records, imsis) {
      RunStored(imsis, responses, readings, p, records);
    }
    if NoneAbsent(readings) {
      RunQuiet(imsis, responses, readings, p, records);
    }
  }

  /** What the run over the input files does, from a state that has not failed: as for one file. */
  lemma {:induction false} FilesFacts(imsis: map<string, nat>, responses: seq<string>, readings: seq<Reading>,
                                      p: Progress, files: seq<seq<Parsed<KeysRecord>>>)
    requires ReadsAs(responses, readings) && p.out.Pass?
    ensures var q := FilesRun(imsis, readings, p, files);
            && (q.out.Fail? ==> q.out.error != DefaultsMalformed)
            && (q.out.Pass? ==> FilesCovered(files, |files|, KnownAfter(imsis, q.log)))
            && KnownAfter(imsis, p.log) <= KnownAfter(imsis, q.log)
            && ((forall f :: 0 <= f < |files| ==> AllStored(files[f], imsis)) ==> q.log == p.log)
            && (NoneAbsent(readings) ==> q.added == p.added)
    decreases |files|
  {
    if files != [] {
      var p' := FileRun(imsis, readings, p, files[0]);
      RunFacts(imsis, responses, readings, p, files[0]);
      if p'.out.Pass? {
        var rest := files[1..];
        FilesFacts(imsis, responses, readings, p', rest);
        var q := FilesRun(imsis, readings, p, files);
        assert q == FilesRun(imsis, readings, p', rest);
        assert forall f :: 0 < f < |files| ==> files[f] == rest[f - 1];
      }
    }
  }

  class Importer {
    const table: DefaultsTable
    const session: Session
    var cntNewHlr: nat

    ghost predicate Valid()
      reads this, table
    {
      table.Valid() && session.Valid()
    }

    /** The IMSIs that have a number: stored before the run, or in a row the run appended. */
    ghost function Known(): set<string>
      reads this, table
    {
      KnownAfter(table.imsis, table.appended)
    }

    /** The state of the run, as the reference run describes it, when it stands at `out`. */
    ghost function Now(out: Outcome): Progress
      reads this, table, session
    {
      Progress(out, table.latestDefault, table.appended, session.next, session.sent, cntNewHlr)
    }

    constructor (table: DefaultsTable, session: Session)
      requires table.Valid() && session.Valid()
      ensures Valid() && this.table == table && this.session == session && cntNewHlr == 0
    {
      this.table := table;
      this.session := session;
      cntNewHlr := 0;
    }

    /** Sends the three provisioning commands, stopping at the first response that is not accepted. */
    method Provision(rec: KeysRecord, msisdn: nat) returns (out: Outcome)
      requires session.Valid()
      modifies this, session
      ensures var k := LeadingAccepted(session.readings, old(session.next), Acks);
              && session.sent == old(session.sent) + ProvisionCommands(rec, msisdn)[..Attempted(k)]
              && (out == Pass <==> k == 3)
              && (k < 3 ==> out == AckAt(session.readings, old(session.next) + k, Acks[k]))
              && cntNewHlr == old(cntNewHlr) + (if k == 3 then 1 else 0)
              && (k == 3 ==> session.next == old(session.next) + 3)
              && session.next == Advance(old(session.next), Attempted(k), |session.readings|)
    {
      ghost var from := session.next;
      ghost var cmds := ProvisionCommands(rec, msisdn);
      ghost var k := LeadingAccepted(session.readings, from, Acks);
      out := session.Send(CreateSubscriber(rec.imsi), Created);
      if out.Fail? {
        assert k == 0;
        return;
      }
      out := session.Send(UpdateMsisdn(rec.imsi, msisdn), Updated);
      if out.Fail? {
        assert k == 1;
        assert cmds[..2] == [cmds[0], cmds[1]];
        return;
      }
      out := session.Send(UpdateAud3g(rec.imsi, rec.ki, rec.opc), Silent);
      if out.Fail? {
        assert AckAt(session.readings, from + 2, Acks[2]).Fail?;
        assert AckAt(session.readings, from + 1, Acks[1]) == Pass;
        assert Acks[1..][1..] == Acks[2..];
        assert LeadingAccepted(session.readings, from + 2, Acks[2..]) == 0;
        assert LeadingAccepted(session.readings, from + 1, Acks[1..]) == 1;
        assert k == 2;
        return;
      }
      assert k == 3;
      cntNewHlr := cntNewHlr + 1;
    }

    /** The existence check for a record and, when the subscriber is absent, its provisioning. */
    method ProvisionIfAbsent(rec: KeysRecord, msisdn: nat) returns (out: Outcome)
      requires session.Valid()
      modifies this, session
      ensures var t := RegistryHalf(session.readings, old(session.next), rec, msisdn);
              && session.sent == old(session.sent) + t.sent
              && out == t.out
              && cntNewHlr == old(cntNewHlr) + (if t.provisioned then 1 else 0)
              && (out.Pass? ==> session.next == old(session.next) + (if t.provisioned then 4 else 1))
              && session.next == Advance(old(session.next), |t.sent|, |session.readings|)
    {
      ghost var from := session.next;
      var shown := session.Show(rec.imsi);
      if shown.Err? {
        return Fail(shown.error);
      }
      if !shown.value {
        // Already provisioned.
        return Pass;
      }
      out := Provision(rec, msisdn);
      AdvanceAdd(from, 1, Attempted(LeadingAccepted(session.readings, from + 1, Acks)), |session.readings|);
    }

    /** The sequence `main` runs for one input record: allocate first, then the registry. */
    method ImportRecord(rec: KeysRecord) returns (out: Outcome)
      requires Valid()
      modifies this, table, session
      ensures Valid()
      ensures var a := Allocation(table.imsis, old(table.latestDefault), rec.imsi);
              && table.AllocationStep(old(table.latestDefault), old(table.cntNewDefault), old(table.appended), rec.imsi, a)
              // if the allocation fails nothing is sent
              && (a.Err? ==> out == Fail(a.error) && session.sent == old(session.sent)
                             && session.next == old(session.next) && cntNewHlr == old(cntNewHlr))
              // otherwise the registry half runs with the allocated number
              && (a.Ok? ==>
                    var t := RegistryHalf(session.readings, old(session.next), rec, a.value);
                    && session.sent == old(session.sent) + t.sent
                    && out == t.out
                    && cntNewHlr == old(cntNewHlr) + (if t.provisioned then 1 else 0)
                    && (out.Pass? ==> session.next == old(session.next) + (if t.provisioned then 4 else 1))
                    && session.next == Advance(old(session.next), |t.sent|, |session.readings|))
      // the whole new state is the reference step from the old one
      ensures Now(out) == RecordStep(table.imsis, session.readings, old(Now(Pass)), rec)
      ensures out.Pass? ==> rec.imsi in Known()
      // an IMSI that had a number keeps it
      ensures old(Known()) <= Known()
      ensures out.Fail? ==> out.error != DefaultsMalformed
      ensures NoneAbsent(session.readings) ==> cntNewHlr == old(cntNewHlr)
    {
      ghost var before := table.appended;
      var number := table.GetOrAllocate(rec.imsi);
      if table.appended != before {
        LoadedMapSnoc(before, DefaultsRecord(rec.imsi, number.value));
      }
      if number.Err? {
        return Fail(number.error);
      }
      ghost var from := session.next;
      out := ProvisionIfAbsent(rec, number.value);
      RegistryFailureKind(session.responses, session.readings, from, rec, number.value);
      if NoneAbsent(session.readings) {
        QuietRegistry(session.readings, from, rec, number.value);
      }
    }

    /** Imports the records of one input file, in order, stopping at the first failure. */
    method ImportFile(records: seq<Parsed<KeysRecord>>) returns (out: Outcome)
      requires Valid()
      modifies this, table, session
      ensures Valid()
      ensures out.Pass? ==> AllParsed(records)
      // after a complete file every one of its IMSIs has a number
      ensures out.Pass? ==> forall i :: 0 <= i < |records| ==> records[i].value.imsi in Known()
      ensures old(Known()) <= Known()
      ensures out.Fail? ==> out.error != DefaultsMalformed
      ensures AllStored(records, table.imsis) ==> table.appended == old(table.appended)
      ensures NoneAbsent(session.readings) ==> cntNewHlr == old(cntNewHlr)
      // the records are imported in order, and the run stops at the first failure
      ensures Now(out) == FileRun(table.imsis, session.readings, old(Now(Pass)), records)
    {
      out := Pass;
      ghost var start := Now(Pass);
      var i := 0;
      while i < |records| && out.Pass?
        invariant Valid()
        invariant 0 <= i <= |records|
        invariant FileRun(table.imsis, session.readings, Now(out), records[i..])
                  == FileRun(table.imsis, session.readings, start, records)
        decreases |records| - i, if out.Pass? then 1 else 0
      {
        RunFrom(table.imsis, session.readings, Now(out), records, i);
        if records[i].Malformed? {
          out := Fail(InputMalformed);
        } else {
          out := ImportRecord(records[i].value);
          i := i + 1;
        }
      }
      RunFacts(table.imsis, session.responses, session.readings, start, records);
    }

    /** Imports the input files in order, stopping at the first failure. */
    method ImportFiles(files: seq<seq<Parsed<KeysRecord>>>) returns (out: Outcome)
      requires Valid()
      modifies this, table, session
      ensures Valid()
      ensures out.Fail? ==> out.error != DefaultsMalformed
      ensures out.Pass? ==> FilesCovered(files, |files|, Known())
      ensures (forall f :: 0 <= f < |files| ==> AllStored(files[f], table.imsis)) ==> table.appended == old(table.appended)
      ensures NoneAbsent(session.readings) ==> cntNewHlr == old(cntNewHlr)
      // the files are imported in order, and the run stops at the first failure
      ensures Now(out) == FilesRun(table.imsis, session.readings, old(Now(Pass)), files)
    {
      out := Pass;
      ghost var start := Now(Pass);
      var f := 0;
      while f < |files| && out.Pass?
        invariant Valid()
        invariant 0 <= f <= |files|
        invariant FilesRun(table.imsis, session.readings, Now(out), files[f..])
                  == FilesRun(table.imsis, session.readings, start, files)
        decreases |files| - f, if out.Pass? then 1 else 0
      {
        FilesRunFrom(table.imsis, session.readings, Now(out), files, f);
        out := ImportFile(files[f]);
        if out.Pass? {
          f := f + 1;
        }
      }
      FilesFacts(table.imsis, session.responses, session.readings, start, files);
    }
  }

  /**
   * One run of the importer after the session has reached the privileged prompt: load
   * the stored defaults table, then import every input file in order. Returns how it ended,
   * the rows appended to the defaults table, the commands sent, and the two counters
   * `main` reports.
   */
  method RunImport(stored: seq<Parsed<DefaultsRecord>>, files: seq<seq<Parsed<KeysRecord>>>, responses: seq<string>)
    returns (exit: Outcome, written: seq<DefaultsRecord>, sent: seq<Command>, newDefaults: nat, newHlr: nat)
    ensures !AllParsed(stored) <==> exit == Fail(DefaultsMalformed)
    ensures !AllParsed(stored) ==> written == [] && sent == [] && newDefaults == 0 && newHlr == 0
    ensures AllParsed(stored) ==>
              var rows := Values(stored);
              && newDefaults == |written|
              && FreshRows(written, LoadedMap(rows), Watermark(rows))
              && Increasing(written)
    // the run is the reference run over all the records of all the files, in order
    ensures AllParsed(stored) ==>
              var rows := Values(stored);
              var p := FileRun(LoadedMap(rows), ReadAll(responses), Progress(Pass, Watermark(rows), [], 0, [], 0),
                               Flatten(files));
              exit == p.out && written == p.log && sent == p.sent && newHlr == p.added
    // after a complete run, loading the table again numbers every imported IMSI
    ensures AllParsed(stored) && exit == Pass ==> FilesCovered(files, |files|, LoadedMap(Values(stored) + written).Keys)
    // a registry that never reports a subscriber absent gets nothing provisioned
    ensures (forall j :: 0 <= j < |responses| ==> ShowVerdict(Some(responses[j])) != Ok(true)) ==> newHlr == 0
    // input whose IMSIs are all stored allocates nothing
    ensures AllParsed(stored) && (forall f :: 0 <= f < |files| ==> AllStored(files[f], LoadedMap(Values(stored))))
            ==> written == []
  {
    var loaded := ReadDefaults(stored);
    if loaded.Err? {
      return Fail(DefaultsMalformed), [], [], 0, 0;
    }
    ghost var rows := Values(stored);
    WatermarkIsMaximum(rows);
    LoadedBelowWatermark(rows);
    var table := new DefaultsTable(loaded.value.imsis, loaded.value.biggest);
    var session := new Session(responses);
    var importer := new Importer(table, session);
    exit := importer.ImportFiles(files);
    written, sent := table.appended, session.sent;
    newDefaults, newHlr := table.cntNewDefault, importer.cntNewHlr;
    ReloadCoversLog(rows, written);
    FilesRunFlattens(table.imsis, session.readings, Progress(Pass, Watermark(rows), [], 0, [], 0), files);
    if forall j :: 0 <= j < |responses| ==> ShowVerdict(Some(responses[j])) != Ok(true) {
      QuietReadings(responses, session.readings);
    }
  }
}
