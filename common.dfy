/**
 * Values shared by the allocation table, the registry session and the importer:
 * the fatal outcomes that end a run, and rows as they come out of the CSV reader.
 */
module Common {

  datatype Option<T> = None | Some(value: T)

  /** Why a run stops. Every one of these ends the whole process. */
  datatype Fatal =
    | DefaultsMalformed          // a row of the defaults table did not deserialize (exit status 3)
    | InputMalformed             // a row of an input file did not deserialize (exit status 2)
    | CeilingExceeded            // the allocation assertion failed (a panic)
    | Timeout                    // the privileged prompt did not come back (a panic in unwrap)
    | ShortResponse              // a response lacked the line the code unwraps (a panic)
    | BadResponse(full: string)  // a command was not acknowledged as expected (exit status 4)

  datatype Result<T> = Ok(value: T) | Err(error: Fatal)

  datatype Outcome = Pass | Fail(error: Fatal)

  /** The process exit status each fatal outcome produces; 101 is Rust's status for a panic. */
  function ExitStatus(f: Fatal): nat
  {
    match f
    case DefaultsMalformed => 3
    case InputMalformed => 2
    case BadResponse(_) => 4
    case _ => 101
  }

  /** One row handed over by the CSV reader: a decoded record, or a row it could not decode. */
  datatype Parsed<T> = Row(value: T) | Malformed

  predicate AllParsed<T>(rows: seq<Parsed<T>>)
  {
    forall i :: 0 <= i < |rows| ==> rows[i].Row?
  }

  function Values<T>(rows: seq<Parsed<T>>): (vs: seq<T>)
    requires AllParsed(rows)
    ensures |vs| == |rows|
    ensures forall i :: 0 <= i < |rows| ==> vs[i] == rows[i].value
  {
    seq(|rows|, i requires 0 <= i < |rows| => rows[i].value)
  }
}
