/**
 * The OsmoHLR console as the importer uses it: the command lines it sends, the rules by
 * which it reads a response, and a session that sends a line and waits for the privileged
 * prompt `OsmoHLR# `. The registry itself is an oracle: the responses it gives, up to the
 * next prompt, are fixed in advance, one per command, in order.
 */
module Hlr {
  import opened Common
  import Decimal

  /** Second line of a `show` response when the subscriber does not exist. */
  const NoSubscriber: string := "% No subscriber"
  const CreatedAck: string := "% Created subscriber"
  const UpdatedAck: string := "% Updated subscriber"

  predicate StartsWith(s: string, prefix: string)
  {
    |prefix| <= |s| && s[..|prefix|] == prefix
  }

  /** The first position of `c` in `s`. */
  function FirstIndex(s: string, c: char): (i: nat)
    requires c in s
    ensures i < |s| && s[i] == c
    ensures forall j :: 0 <= j < i ==> s[j] != c
  {
    if s[0] == c then 0 else 1 + FirstIndex(s[1..], c)
  }

  /** A response with its first line, the echo of the command sent, taken off. */
  function AfterEcho(full: string): string
    requires '\n' in full
  {
    full[FirstIndex(full, '\n') + 1..]
  }

  /** Stripping the echo removes exactly the echoed line, whatever it and the body are. */
  lemma StripsEcho(echo: string, body: string)
    requires '\n' !in echo
    ensures '\n' in echo + "\n" + body
    ensures AfterEcho(echo + "\n" + body) == body
  {
    var full := echo + "\n" + body;
    assert full[|echo|] == '\n';
    assert FirstIndex(full, '\n') == |echo|;
  }

  /** The acceptance test of a command's response against the wanted acknowledgement. */
  predicate Accepted(full: string, wanted: string)
    requires '\n' in full
  {
    var res := AfterEcho(full);
    !(!StartsWith(res, wanted) || (wanted == "" && res != ""))
  }

  /**
   * A response is accepted iff its body starts with the wanted acknowledgement, or, when
   * nothing is wanted, iff its body is empty.
   */
  lemma AcceptedResponse(echo: string, body: string, wanted: string)
    requires '\n' !in echo
    ensures '\n' in echo + "\n" + body
    ensures wanted != "" ==> (Accepted(echo + "\n" + body, wanted) <==> StartsWith(body, wanted))
    ensures wanted == "" ==> (Accepted(echo + "\n" + body, wanted) <==> body == "")
  {
    StripsEcho(echo, body);
  }

  /** `lines().nth(1)` exists: there is a newline, and something after the first one. */
  predicate HasSecondLine(full: string)
  {
    '\n' in full && AfterEcho(full) != ""
  }

  /**
   * Line index 1 of the response as `str::lines` yields it: up to the next newline, without
   * that newline and without a carriage return just before it.
   */
  function SecondLine(full: string): string
    requires HasSecondLine(full)
  {
    var rest := AfterEcho(full);
    if '\n' in rest then
      var line := rest[..FirstIndex(rest, '\n')];
      if line != "" && line[|line| - 1] == '\r' then line[..|line| - 1] else line
    else rest
  }

  /** The existence check: the subscriber is absent iff line index 1 carries the marker. */
  predicate SubscriberAbsent(full: string)
    requires HasSecondLine(full)
  {
    StartsWith(SecondLine(full), NoSubscriber)
  }

  /** Where line index 1 ends within the body: before its newline and a carriage return just before it. */
  function LineEnd(body: string): (j: nat)
    ensures j <= |body|
  {
    if '\n' in body then
      var i := FirstIndex(body, '\n');
      if i > 0 && body[i - 1] == '\r' then i - 1 else i
    else |body|
  }

  lemma SecondLineIsPrefix(echo: string, body: string)
    requires '\n' !in echo && body != ""
    ensures HasSecondLine(echo + "\n" + body)
    ensures SecondLine(echo + "\n" + body) == body[..LineEnd(body)]
  {
    StripsEcho(echo, body);
  }

  /** A body that starts with the marker keeps the whole marker on its first line. */
  lemma MarkerFitsLine(body: string)
    requires StartsWith(body, NoSubscriber)
    ensures |NoSubscriber| <= LineEnd(body)
  {
    assert '\n' !in NoSubscriber && '\r' !in NoSubscriber;
  }

  /**
   * Only the start of the body decides: the subscriber is absent iff the text after the
   * echoed line starts with the marker; what follows on later lines does not matter.
   */
  lemma AbsentResponse(echo: string, body: string)
    requires '\n' !in echo && body != ""
    ensures HasSecondLine(echo + "\n" + body)
    ensures SubscriberAbsent(echo + "\n" + body) <==> StartsWith(body, NoSubscriber)
  {
    SecondLineIsPrefix(echo, body);
    var j := LineEnd(body);
    if StartsWith(body, NoSubscriber) {
      MarkerFitsLine(body);
      assert body[..j][..|NoSubscriber|] == body[..|NoSubscriber|];
    }
    if StartsWith(body[..j], NoSubscriber) {
      assert body[..j][..|NoSubscriber|] == body[..|NoSubscriber|];
    }
  }

  /** The console commands the importer sends. */
  datatype Command =
    | ShowSubscriber(imsi: string)
    | CreateSubscriber(imsi: string)
    | UpdateMsisdn(imsi: string, msisdn: nat)
    | UpdateAud3g(imsi: string, ki: string, opc: string)

  /** The command line sent for `c`. */
  function Line(c: Command): string
  {
    match c
    case ShowSubscriber(imsi) => "subscriber imsi " + imsi + " show"
    case CreateSubscriber(imsi) => "subscriber imsi " + imsi + " create"
    case UpdateMsisdn(imsi, msisdn) => "subscriber imsi " + imsi + " update msisdn " + Decimal.Show(msisdn)
    case UpdateAud3g(imsi, ki, opc) => "subscriber imsi " + imsi + " update aud3g milenage k " + ki + " opc " + opc
  }

  /** The `update msisdn` command carries exactly the given number, in decimal, at its end. */
  lemma MsisdnCommandCarriesNumber(imsi: string, msisdn: nat)
    ensures var c := Line(UpdateMsisdn(imsi, msisdn));
            var p := "subscriber imsi " + imsi + " update msisdn ";
            && StartsWith(c, p)
            && Decimal.AllDigits(c[|p|..])
            && Decimal.Parse(c[|p|..]) == msisdn
  {
    var c := Line(UpdateMsisdn(imsi, msisdn));
    var p := "subscriber imsi " + imsi + " update msisdn ";
    assert c[|p|..] == Decimal.Show(msisdn);
    Decimal.ParseShow(msisdn);
  }

  /** The `i`-th response of the oracle, or `None` when it gives no more (the prompt never comes). */
  function ResponseAt(responses: seq<string>, i: nat): Option<string>
  {
    if i < |responses| then Some(responses[i]) else None
  }

  /** How the importer judges the response to a command that must be acknowledged with `wanted`. */
  function Verdict(resp: Option<string>, wanted: string): (out: Outcome)
    ensures out == Pass <==> resp.Some? && '\n' in resp.value && Accepted(resp.value, wanted)
    ensures out.Fail? && resp.Some? && '\n' in resp.value ==> out.error == BadResponse(resp.value)
  {
    match resp
    case None => Fail(Timeout)
    case Some(full) =>
      if '\n' !in full then Fail(ShortResponse)
      else if Accepted(full, wanted) then Pass
      else Fail(BadResponse(full))
  }

  /** How the importer reads the response to `show`: `Ok(true)` when the subscriber is absent. */
  function ShowVerdict(resp: Option<string>): (r: Result<bool>)
    ensures r.Ok? <==> resp.Some? && HasSecondLine(resp.value)
    ensures r.Ok? ==> (r.value <==> SubscriberAbsent(resp.value))
  {
    match resp
    case None => Err(Timeout)
    case Some(full) =>
      if HasSecondLine(full) then Ok(SubscriberAbsent(full)) else Err(ShortResponse)
  }

  /**
   * The verdict on an echoed response, in terms of its body alone: accepted iff the body
   * starts with the wanted acknowledgement, or, when none is wanted, iff it is empty;
   * otherwise the whole response is reported.
   */
  lemma VerdictOnBody(echo: string, body: string, wanted: string)
    requires '\n' !in echo
    ensures Verdict(Some(echo + "\n" + body), wanted)
            == if (if wanted == "" then body == "" else StartsWith(body, wanted)) then Pass
               else Fail(BadResponse(echo + "\n" + body))
  {
    AcceptedResponse(echo, body, wanted);
  }

  /**
   * The `show` verdict on an echoed response, in terms of its body alone: an empty body has
   * no line index 1; otherwise the subscriber is absent iff the body starts with the marker.
   */
  lemma ShowVerdictOnBody(echo: string, body: string)
    requires '\n' !in echo
    ensures ShowVerdict(Some(echo + "\n" + body))
            == if body == "" then Err(ShortResponse) else Ok(StartsWith(body, NoSubscriber))
  {
    StripsEcho(echo, body);
    if body != "" {
      AbsentResponse(echo, body);
    }
  }

  /** The acknowledgements a command can wait for. */
  datatype Ack = Created | Updated | Silent

  /** The text of an acknowledgement; a command that waits for `Silent` must get an empty body. */
  function AckText(a: Ack): string
  {
    match a
    case Created => CreatedAck
    case Updated => UpdatedAck
    case Silent => ""
  }

  /**
   * How the importer reads one response: as the answer to `show`, and as the answer to a
   * command waiting for each acknowledgement.
   */
  datatype Reading = Reading(show: Result<bool>, created: Outcome, updated: Outcome, silent: Outcome)

  function Read(full: string): Reading
  {
    Reading(ShowVerdict(Some(full)), Verdict(Some(full), CreatedAck), Verdict(Some(full), UpdatedAck),
            Verdict(Some(full), ""))
  }

  /** The verdict a reading gives a command waiting for `a`. */
  function Judged(r: Reading, a: Ack): Outcome
  {
    match a
    case Created => r.created
    case Updated => r.updated
    case Silent => r.silent
  }

  /** How the importer reads each of `responses`. */
  function ReadAll(responses: seq<string>): seq<Reading>
  {
    seq(|responses|, i requires 0 <= i < |responses| => Read(responses[i]))
  }

  /** `readings` is how the importer reads `responses`, one for one. */
  ghost predicate ReadsAs(responses: seq<string>, readings: seq<Reading>)
  {
    && |readings| == |responses|
    && forall i {:trigger Read(responses[i])} :: 0 <= i < |responses| ==> readings[i] == Read(responses[i])
  }

  /** The `i`-th reading as the answer to `show`; a timeout when the registry gives no more. */
  function ShowAt(readings: seq<Reading>, i: nat): Result<bool>
  {
    if i < |readings| then readings[i].show else Err(Timeout)
  }

  /** The `i`-th reading as the answer to a command waiting for `a`; a timeout when there is none. */
  function AckAt(readings: seq<Reading>, i: nat, a: Ack): Outcome
  {
    if i < |readings| then Judged(readings[i], a) else Fail(Timeout)
  }

  /** The readings give exactly the verdicts the judging rules give the responses. */
  lemma ReadingAt(responses: seq<string>, readings: seq<Reading>, i: nat, a: Ack)
    requires ReadsAs(responses, readings)
    ensures ShowAt(readings, i) == ShowVerdict(ResponseAt(responses, i))
    ensures AckAt(readings, i, a) == Verdict(ResponseAt(responses, i), AckText(a))
  {
    if i < |responses| {
      assert readings[i] == Read(responses[i]);
    }
  }

  /** A reading fails only on what the registry says or does not say. */
  lemma ReadingErrors(responses: seq<string>, readings: seq<Reading>, i: nat, a: Ack)
    requires ReadsAs(responses, readings)
    ensures ShowAt(readings, i).Err? ==> ShowAt(readings, i).error in {Timeout, ShortResponse}
    ensures AckAt(readings, i, a).Fail? ==>
              var e := AckAt(readings, i, a).error;
              e.Timeout? || e.ShortResponse? || e == BadResponse(responses[i])
  {
    ReadingAt(responses, readings, i, a);
  }

  /**
   * How many of the commands waiting for `wanted`, answered by the readings from position
   * `from` on, are accepted before the first one that is not.
   */
  function LeadingAccepted(readings: seq<Reading>, from: nat, wanted: seq<Ack>): (k: nat)
    ensures k <= |wanted|
    ensures k < |wanted| ==> AckAt(readings, from + k, wanted[k]).Fail?
    decreases |wanted|
  {
    if wanted == [] then 0
    else if AckAt(readings, from, wanted[0]).Fail? then 0
    else 1 + LeadingAccepted(readings, from + 1, wanted[1..])
  }

  /** Every command before the first rejected one was accepted. */
  lemma {:induction false} AcceptedBefore(readings: seq<Reading>, from: nat, wanted: seq<Ack>, i: nat)
    requires i < LeadingAccepted(readings, from, wanted)
    ensures AckAt(readings, from + i, wanted[i]) == Pass
    decreases |wanted|
  {
    if i > 0 {
      AcceptedBefore(readings, from + 1, wanted[1..], i - 1);
      assert from + 1 + (i - 1) == from + i && wanted[1..][i - 1] == wanted[i];
    }
  }

  /** A registry that never reports a subscriber absent. */
  predicate NoneAbsent(readings: seq<Reading>)
  {
    forall j :: 0 <= j < |readings| ==> readings[j].show != Ok(true)
  }

  /** Reading a registry that never reports a subscriber absent gives readings that never do. */
  lemma QuietReadings(responses: seq<string>, readings: seq<Reading>)
    requires ReadsAs(responses, readings)
    requires forall j :: 0 <= j < |responses| ==> ShowVerdict(Some(responses[j])) != Ok(true)
    ensures NoneAbsent(readings)
  {
    forall j | 0 <= j < |readings|
      ensures readings[j].show != Ok(true)
    {
      assert readings[j] == Read(responses[j]);
    }
  }

  /**
   * Where the next answer lies after `m` more commands from position `next`, when the
   * registry gives `len` answers in all: each command used one, until they ran out.
   */
  function Advance(next: nat, m: nat, len: nat): nat
  {
    if len <= next then next else if next + m <= len then next + m else len
  }

  /** Two batches of commands, one after the other, use up as much as both sent at once. */
  lemma AdvanceAdd(next: nat, a: nat, b: nat, len: nat)
    ensures Advance(Advance(next, a, len), b, len) == Advance(next, a + b, len)
  {
  }

  /** The console session, once it is at the privileged prompt. */
  class Session {
    /** What the registry answers, in order, to the commands sent. */
    const responses: seq<string>
    /** How the importer reads each of those answers. */
    ghost const readings: seq<Reading>
    /** The position in `responses` of the next answer. */
    var next: nat
    /** The commands sent so far, in order; `Line` gives the text of each. */
    var sent: seq<Command>

    ghost predicate Valid()
    {
      ReadsAs(responses, readings)
    }

    constructor (responses: seq<string>)
      ensures Valid() && this.responses == responses && readings == ReadAll(responses)
      ensures next == 0 && sent == []
    {
      this.responses := responses;
      readings := ReadAll(responses);
      next := 0;
      sent := [];
    }

    /** Sends the line of `c` and waits for the prompt; `None` when it does not come. */
    method Exchange(c: Command) returns (resp: Option<string>)
      modifies this
      ensures resp == ResponseAt(responses, old(next))
      ensures sent == old(sent) + [c]
      ensures next == old(next) + (if old(next) < |responses| then 1 else 0)
    {
      sent := sent + [c];
      if next < |responses| {
        resp := Some(responses[next]);
        next := next + 1;
      } else {
        resp := None;
      }
    }

    /** Sends a command whose response must be acknowledged with `a`. */
    method Send(c: Command, a: Ack) returns (out: Outcome)
      requires Valid()
      modifies this
      ensures out == AckAt(readings, old(next), a)
      ensures sent == old(sent) + [c]
      ensures next == old(next) + (if old(next) < |responses| then 1 else 0)
    {
      ReadingAt(responses, readings, next, a);
      var resp := Exchange(c);
      match resp
      case None =>
        out := Fail(Timeout);
      case Some(full) =>
        if '\n' !in full {
          out := Fail(ShortResponse);
        } else if !Accepted(full, AckText(a)) {
          out := Fail(BadResponse(full));
        } else {
          out := Pass;
        }
    }

    /** Asks whether `imsi` is provisioned; `Ok(true)` when the registry reports it absent. */
    method Show(imsi: string) returns (r: Result<bool>)
      requires Valid()
      modifies this
      ensures r == ShowAt(readings, old(next))
      ensures sent == old(sent) + [ShowSubscriber(imsi)]
      ensures next == old(next) + (if old(next) < |responses| then 1 else 0)
    {
      ReadingAt(responses, readings, next, Silent);
      var resp := Exchange(ShowSubscriber(imsi));
      match resp
      case None =>
        r := Err(Timeout);
      case Some(full) =>
        if !HasSecondLine(full) {
          r := Err(ShortResponse);
        } else {
          r := Ok(SubscriberAbsent(full));
        }
    }
  }
}
