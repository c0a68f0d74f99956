# emf-hlr-importer, modelled in Dafny

emf-hlr-importer provisions SIM cards into an OsmoHLR home location register.

- **Inputs.** It reads `defaults.csv`, a persistent table that maps each IMSI to a default MSISDN. It then reads one or more input CSV files of `IMSI,KI,OPC` records.
- **Defaults.** A record whose IMSI has no stored default is given the next free number: one above the highest number seen so far, and always below 90500000. The new `imsi,n` row is appended to the table.
- **Registry.** On the OsmoHLR console the importer asks whether each subscriber exists, using `subscriber imsi … show`. If the subscriber is absent, it creates it, sets its MSISDN, and installs its Milenage keys. Each of these commands must be acknowledged as expected.
- **Failure.** Any anomaly ends the whole run.

The model is in five modules, one per file:

- `Common` (`common.dfy`): the fatal outcomes that end a run, and their exit statuses (`ExitStatus`). Also the `Parsed` rows the CSV reader hands over: a decoded record or `Malformed`.
- `Decimal` (`decimal.dfy`): the decimal text of a number, as it goes into a table row and into the `update msisdn` command, and reading that text back.
- `Defaults` (`defaults.dfy`):
  - `read_defaults` as the method `ReadDefaults`, specified by the fold functions `LoadedMap` and `Watermark`.
  - The class `DefaultsTable`, which holds the state `main` keeps for allocation:
    - the immutable map;
    - `latest_default` and `cnt_new_default`;
    - the rows appended to the file, with `FileText` as their text.
  - The get-or-allocate rule `Allocation`.
  - The release-build variant `WrappingAllocation`.
  - `HeaderlessLoad`: what loading makes of a defaults file that lacks its header line.
- `Hlr` (`hlr.dfy`):
  - The console commands, as the datatype `Command` with its text `Line`.
  - The rules by which a response is judged:
    - `AfterEcho` strips the echoed line.
    - `Accepted` is the `expect_result` test.
    - `SecondLine` and `SubscriberAbsent` form the existence check, following `str::lines` semantics.
  - The class `Session`. The registry is an oracle here: its responses, each up to the next `OsmoHLR# ` prompt, are fixed in advance, one per command sent. Running out of responses stands for the prompt not coming back within the timeout.
  - Each response is also available pre-judged as a `Reading`. `ReadsAs` ties the readings to the judging rules.
- `Import` (`import.dfy`):
  - The class `Importer`, which holds the per-record sequence (`ImportRecord`) and the loops over one file (`ImportFile`) and over all files (`ImportFiles`).
  - `RunImport`: the body of `main` after argument parsing and after the session has reached the privileged prompt.
  - `RegistryHalf` is the reference definition of what the registry half of one record sends and how it ends.
  - `RecordStep`, `FileRun` and `FilesRun` are the reference run: one record, then the records of a file in order, then the files in order. Once a step fails, nothing further happens. `Progress` is the state between records: the outcome, `latest_default`, the rows appended, the registry position, the commands sent and `cnt_new_hlr`.

Only a rejected acknowledgement (src/main.rs:136-139), a malformed input row (src/main.rs:93-97) and a malformed stored row (src/main.rs:37-41) end the run with their own exit statuses, 4, 2 and 3. A timeout, a response without the line the code unwraps, and a failed ceiling assertion end it with a panic (status 101).

## Model

| member | source | states |
|---|---|---|
| Decimal.Show | src/main.rs:113 | The text a number is written as is a non-empty string of decimal digits. It has a leading zero only for zero. |
| Decimal.ParseShow | src/main.rs:113 | Reading a number's decimal text back gives the number itself. |
| Defaults.LoadedMap | src/main.rs:43 | Defines the map that inserting the stored rows in order builds. |
| Defaults.Watermark | src/main.rs:44 | Defines the running maximum of the stored numbers, starting from 90400000. |
| Defaults.ReadDefaults | src/main.rs:30-47 | The load succeeds iff every stored row deserializes. Otherwise it fails with the malformed-defaults error (exit 3). On success it returns the map built by inserting the rows in order, and the maximum of 90400000 and every stored number. |
| Defaults.WatermarkIsMaximum | src/main.rs:33-44 | The watermark is at least the floor 90400000 and at least every stored number. It equals the floor or one of the stored numbers. |
| Defaults.LoadedBelowWatermark | src/main.rs:43-44 | Every number in the loaded map is at or below the watermark. |
| Defaults.LoadedMapKeys | src/main.rs:43 | The keys of the loaded map are exactly the IMSIs occurring in the stored rows. |
| Defaults.LastRowWins | src/main.rs:43 | For an IMSI stored several times, the map holds the number of its last row. |
| Defaults.ReloadCoversLog | src/main.rs:30-47 | Reloading the stored rows followed by the rows a run appended knows every IMSI that was stored or appended. The new watermark is at or above the old one and every number issued. |
| Defaults.NoReissueAfterReload | src/main.rs:103-111 | After such a reload, a number allocated to a fresh IMSI is above every stored and every appended number, so none is issued twice. |
| Defaults.HeaderlessReloadReissues | src/main.rs:30-47 | A defaults file created empty gets its first row with no header before it. The next run reads that row as the header, loads nothing, and issues 90400001 a second time. |
| Defaults.RowText | src/main.rs:113 | Defines the row written for an issued number: `imsi,n` and a newline. |
| Defaults.Allocation | src/main.rs:103-111 | Defines get-or-allocate: a stored IMSI's number, else the watermark plus one below 90500000, else the ceiling error. |
| Defaults.WrappingAllocation | src/main.rs:109-110 | Defines the same allocation under a release build, where the `u64` increment wraps. |
| Defaults.HeaderlessLoad | src/main.rs:31 | Defines what loading makes of a header-less file: its first row is the header, and any further row fails to deserialize. |
| Defaults.LogTextAppend | src/main.rs:113 | Appending a row adds exactly that row's text to the end of the file. |
| Defaults.RowTextReadsBack | src/main.rs:113 | A written row splits at its first comma into the IMSI and a digit string ending in a newline. The digits parse back to the issued number. |
| Defaults.DefaultsTable.constructor | src/main.rs:70 | The table starts with the loaded map, `latest_default` at the loaded watermark, no new defaults and nothing appended. |
| Defaults.DefaultsTable.GetOrAllocate | src/main.rs:103-119 | A stored IMSI keeps its number. An unknown one gets `latest_default + 1` below 90500000, above every earlier number, with one row appended; otherwise the ceiling error. Cases below. |
| Defaults.WrapAroundIssuesZero | src/main.rs:109-110 | With a stored number of 18446744073709551615, the wrapping increment issues 0, which passes the ceiling assertion. The checked rule refuses the same allocation. |
| Hlr.FirstIndex | src/main.rs:134 | The position found holds the character, and no earlier position does. |
| Hlr.StripsEcho | src/main.rs:133-135 | Stripping the echo from a response removes exactly the echoed line (everything up to and including the first newline), whatever the body is. |
| Hlr.AcceptedResponse | src/main.rs:136 | A response is accepted iff its body after the echo starts with the wanted acknowledgement, or, when none is wanted, is empty. Cases below. |
| Hlr.SecondLineIsPrefix | src/main.rs:123 | For a non-empty body, `lines().nth(1)` exists. It is the body up to its first newline, without a carriage return just before that newline. |
| Hlr.AbsentResponse | src/main.rs:123-125 | For a non-empty body, the subscriber counts as absent iff the body starts with `% No subscriber`. Later lines do not matter. |
| Hlr.MsisdnCommandCarriesNumber | src/main.rs:144 | The `update msisdn` command ends with exactly the allocated number in decimal. |
| Hlr.Verdict | src/main.rs:130-141 | Defines how `expect_result` judges a response: no response is a timeout, one without a newline is too short, and a rejected response is reported in full. What this means for a response with a given body is `Hlr.VerdictOnBody`. |
| Hlr.ShowVerdict | src/main.rs:121-125 | Defines how the existence check reads the `show` response: no response is a timeout, no line index 1 is too short, otherwise absent or present. What this means for a response with a given body is `Hlr.ShowVerdictOnBody`. |
| Hlr.VerdictOnBody | src/main.rs:130-141 | For an echoed line followed by a body, the command passes iff the body starts with the wanted acknowledgement, or is empty when none is wanted. Otherwise it fails reporting the whole response (exit 4). |
| Hlr.ShowVerdictOnBody | src/main.rs:121-125 | For an echoed line followed by a body, an empty body is a panic (no line index 1). Otherwise the subscriber is reported absent iff the body starts with `% No subscriber`. |
| Hlr.AfterEcho | src/main.rs:134-135 | Defines the body of a response: the text after its first newline. |
| Hlr.Accepted | src/main.rs:136 | Defines the acceptance test on that body, as written in the source. |
| Hlr.SecondLine | src/main.rs:123 | Defines `lines().nth(1)`: the body up to its next newline, without a carriage return just before it. |
| Hlr.SubscriberAbsent | src/main.rs:125 | Defines the existence check: line index 1 starts with `% No subscriber`. |
| Hlr.Line | src/main.rs:121-145 | Defines the exact text of the four console commands sent. |
| Hlr.ReadingAt | src/main.rs:122-136 | The pre-judged reading at any position gives exactly the `show` verdict and the acknowledgement verdict of the response at that position. |
| Hlr.ReadingErrors | src/main.rs:122-139 | A failed reading is a timeout, a response too short to judge, or a rejection of the response at that position. |
| Hlr.LeadingAccepted | src/main.rs:143-145 | The count of leading accepted commands is at most the number of commands. When it is smaller, the command at that position was not accepted. |
| Hlr.AcceptedBefore | src/main.rs:143-145 | Every command before the first rejected one was accepted. |
| Hlr.QuietReadings | src/main.rs:123-127 | Responses none of which reports a subscriber absent give readings none of which does. |
| Hlr.Session.constructor | src/main.rs:77-80 | The session starts at the privileged prompt with nothing sent, and readings that agree with the responses. |
| Hlr.Session.Exchange | src/main.rs:121-122 | Sending a command records it. The answer is the next response, or none once the registry gives no more, and the position advances exactly when there was one. |
| Hlr.Session.Send | src/main.rs:130-141 | `expect_result`: sends the command, and its outcome is the verdict on the next response for the wanted acknowledgement. |
| Hlr.Session.Show | src/main.rs:121-125 | Sends `subscriber imsi … show`, and the result is the `show` verdict on the next response. |
| Import.RegistryHalf | src/main.rs:121-146 | Defines what the registry half of one record sends and how it ends. |
| Import.RecordStep | src/main.rs:101-146 | Defines one record's step from a run state: allocation, then, if that succeeds, the registry half with the allocated number. |
| Import.FileRun | src/main.rs:90-147 | Defines the run over a file's records in order. A malformed row fails it, and a failed run absorbs everything after. |
| Import.FilesRun | src/main.rs:87-148 | Defines the run over the files in order, stopping at the first failure. |
| Import.RegistryHalfSends | src/main.rs:121-146 | `show` first, then a prefix of the three provisioning commands; provisioned iff all four were sent and accepted. Cases below. |
| Import.ProvisionedIffAllAccepted | src/main.rs:125-146 | A subscriber is provisioned iff the registry reports it absent and accepts all three provisioning commands. |
| Import.RegistryFailureKind | src/main.rs:121-141 | The registry half fails only with a timeout, a short response or a rejected response. |
| Import.QuietRegistry | src/main.rs:125-128 | When the registry never reports a subscriber absent, nothing is provisioned. |
| Import.Importer.constructor | src/main.rs:84-85 | The import starts with the given table and session and no subscriber added. |
| Import.Importer.Provision | src/main.rs:143-146 | Commands are sent up to the first one not accepted; the outcome is its verdict; the counter rises iff all three pass. Cases below. |
| Import.Importer.ProvisionIfAbsent | src/main.rs:121-146 | The commands sent, the outcome and the counter agree exactly with the reference `RegistryHalf`. |
| Import.Importer.ImportRecord | src/main.rs:101-146 | Allocation first; on its failure nothing is sent; otherwise the registry half runs as `RegistryHalf` says with that number. Cases below. |
| Import.Importer.ImportFile | src/main.rs:89-147 | The new outcome, `latest_default`, appended rows, registry position, commands sent and `cnt_new_hlr` are exactly the reference `FileRun`: records in order, stopping at the first failure. Cases below. |
| Import.Importer.ImportFiles | src/main.rs:87-148 | The whole new state is exactly the reference `FilesRun`: files in order, stopping at the first failure. Cases below. |
| Import.RunImport | src/main.rs:64-152 | The outcome, rows written, commands sent and counters are the reference run over all records of all files from the loaded table. Malformed defaults iff a stored row is malformed. Cases below. |
| Import.FailedRunIsFinal | src/main.rs:87-148 | Once the run has failed, further records change nothing. |
| Import.RunFrom | src/main.rs:90-99 | From record `i` on, a malformed row fails the run with status 2, and a well-formed one is imported before the rest. |
| Import.FilesRunFrom | src/main.rs:87-90 | From file `f` on, that file's records come first and then the remaining files. |
| Import.RunConcat | src/main.rs:87-90 | Running two stretches of records one after the other is the same as running them together. |
| Import.FailureStopsRun | src/main.rs:87-148 | After the record that fails, nothing more is allocated, appended, sent or counted, whatever input follows. |
| Import.RunSnoc | src/main.rs:90-147 | One more record is imported after the earlier ones, and only if they all succeeded. |
| Import.FilesRunFlattens | src/main.rs:87-90 | Importing file after file is importing all their records as one sequence. |
| Import.RunExtends | src/main.rs:113-146 | A run only adds: the rows appended, the commands sent and the subscriber count extend what came before. |
| Import.StepFacts | src/main.rs:101-146 | One record fails only with the ceiling error, a timeout, a short response or a rejected response. A success leaves its IMSI with a number. The IMSIs that had one keep it. A stored IMSI appends nothing. A quiet registry provisions nothing. |
| Import.RunFailureKind | src/main.rs:89-147 | The run over a file fails only on a malformed row, the ceiling or the registry, never the defaults error. |
| Import.RunKeepsKnown | src/main.rs:89-147 | Over the run of a file, IMSIs that had a number keep it. |
| Import.RunCovers | src/main.rs:89-147 | A file whose run completes is well-formed, and every IMSI in it has a number. |
| Import.RunStored | src/main.rs:103-105 | A file whose IMSIs are all stored appends no row. |
| Import.RunQuiet | src/main.rs:125-128 | A registry that never reports a subscriber absent gets nothing provisioned by a file. |
| Import.RunFacts | src/main.rs:89-147 | The five properties above together, for the run over one file. |
| Import.FilesFacts | src/main.rs:87-148 | The same properties for the run over all files. After a complete run every IMSI of every file has a number. |
| Hlr.AdvanceAdd | src/main.rs:121-132 | Two batches of commands, one after the other, use up as many registry answers as both sent at once. |
| Common.ExitStatus | src/main.rs:40-139 | Defines the exit status each fatal outcome gives: 3 for a malformed stored row (line 40), 2 for a malformed input row (97), 4 for a rejected response (139), and 101, Rust's panic status, for the failed ceiling assertion (110), a missing line index 1 (122-123) and a timeout or a response without a newline (132-134). |
| Import.ProvisionCommands | src/main.rs:143-145 | Defines the three provisioning commands, in order: `create`, `update msisdn` with the allocated number, and `update aud3g` with the record's K and OPc. `Import.RegistryHalfSends` proves they are sent in this order after `show`. |
| Import.Acks | src/main.rs:143-145 | Defines the acknowledgements the three provisioning commands wait for, in order: created, updated, and an empty body. |
| Hlr.AckText | src/main.rs:143-145 | Defines the text of each acknowledgement: `% Created subscriber`, `% Updated subscriber`, and the empty string. |
| Hlr.HasSecondLine | src/main.rs:123 | Defines when `lines().nth(1).unwrap()` does not panic: the response has a newline, and the text after the first one is not empty. |
| Defaults.LogText | src/main.rs:113 | Defines the text a sequence of appended rows adds to the defaults file: each row's `imsi,n` line, in order. |
| Defaults.DefaultsTable.FileText | src/main.rs:113 | Defines the text this run has added to the defaults file: the lines of the rows it appended, in order. |

Contracts with several cases:

- **Defaults.DefaultsTable.GetOrAllocate**
  - A stored IMSI gets its stored number, and nothing changes.
  - An unknown IMSI always raises `latest_default` by one, even when the ceiling assertion then fails. Then:
    - Either the number is below 90500000: it is issued; it is above the floor, every stored number and every number issued before; one row `imsi,n\n` is appended and the new-defaults counter goes up.
    - Or the run fails with the ceiling error and nothing is appended.
  - The map never changes, so an unknown IMSI that occurs twice gets two numbers.
- **Hlr.AcceptedResponse**
  - With a non-empty wanted acknowledgement, a response is accepted iff its body after the echo starts with it.
  - With an empty one, it is accepted iff the body is empty.
- **Hlr.Verdict**
  - A command passes iff a response came and has a newline, and its body passes the acceptance test.
  - A received response that fails the test is reported in full (exit 4).
- **Import.RegistryHalfSends**
  - The `show` command goes first, followed by a prefix of create, `update msisdn`, `update aud3g` in that order.
  - The subscriber is provisioned iff all four were sent and the last was accepted.
  - A record that lets the run go on sent either the check alone or all four.
- **Import.RegistryFailureKind**
  - The registry half fails only with a timeout, a short response, or a rejected response.
- **Import.Importer.Provision**
  - The provisioning commands are sent up to and including the first one not accepted.
  - The outcome is that command's verdict, or success when all three are accepted.
  - The subscriber counter goes up iff all three are accepted.
- **Import.Importer.ImportRecord**
  - Allocation comes first.
  - If it fails, nothing is sent and the run fails with its error.
  - Otherwise, the registry half runs with the allocated number exactly as `RegistryHalf` says.
  - After a success the IMSI has a number. IMSIs that had one keep it.
  - A registry that never reports a subscriber absent adds no subscriber.
- **Import.Importer.ImportFile**
  - The new state equals `FileRun` from the old state. So the records are imported in order, and after the first failure nothing more is allocated, appended or sent (`FailureStopsRun`). A malformed record fails with exit status 2.
  - A file that completes is entirely well-formed, and every IMSI in it has a number.
  - A file whose IMSIs are all stored appends nothing.
  - A registry that never reports a subscriber absent provisions nothing.
- **Import.Importer.ImportFiles**
  - The new state equals `FilesRun` from the old state: the files are imported in order until the first failure.
  - After a complete run every IMSI of every file has a number.
  - Input whose IMSIs are all stored appends nothing.
- **Import.RunImport**
  - The run fails with the malformed-defaults error iff a stored row is malformed. It then sends and writes nothing.
  - Otherwise:
    - the outcome, the rows written, the commands sent and the provisioned counter are those of `FileRun` over all records of all files, in order, from the loaded table and the session's first answer;
    - the new-defaults counter equals the number of rows appended.
  - Every appended row is for an IMSI without a stored number. Its number is above the loaded watermark and below the ceiling, and the numbers strictly increase.
  - After a complete run, reloading the table numbers every imported IMSI.
  - When no response reports a subscriber absent, the provisioned counter stays 0.
  - Input whose IMSIs are all stored appends nothing.

## Left out

- Argument parsing and the usage error with exit status 1 (src/main.rs:55-62): the input files arrive as a sequence.
- Opening the TCP connection and the login handshake, `enable` and the two prompts (src/main.rs:74-80): a `Session` starts at the privileged prompt. The panics of `send_line(...).unwrap()` when writing to the socket fails (src/main.rs:121, 131) are left out too; every send is taken to succeed.
- File opening, seeking and the final `sync_all`, and the panics when they or a row write fail (src/main.rs:65-71, 89, 113-114, 150). These are operating-system I/O. The defaults file is modelled as the text of the rows appended. The rows written and the commands sent are kept as two separate sequences, so the model does not capture how file writes and registry commands interleave: that a record's row is written (src/main.rs:113) before `update msisdn` sends its number (src/main.rs:144).
- CSV decoding with serde: each row arrives as a decoded record or as `Malformed`. Decoding also rejects a stored number that does not fit in a `u64`, so stored numbers are unbounded `nat`s in the model.
- The 1500 ms expect timeout: it is modelled as the oracle having no further response. The newline `send_line` adds is left out too: `Session.sent` records `Command` values, whose text is `Line`.
- All printing to standard output and standard error, including the final counts line (src/main.rs:38-39, 64, 72, 74, 82, 88, 94-96, 137-138, 152): the model returns the counts and, in `BadResponse`, the full response.
- Import.RunImport: returns the fatal outcome rather than an exit status. `Common.ExitStatus` gives the status each outcome produces.
- Defaults.ReloadCoversLog: assumes the defaults file begins with its `IMSI,DefaultMSISDN` header line and ends in a newline, so that a reload reads the stored rows followed by the appended ones. A file without the header is the `HeaderlessLoad` finding. If the file does not end in a newline, the first appended row is glued onto its last line (src/main.rs:113); that case is not modelled.
- Defaults.RowTextReadsBack: holds only for IMSIs without a comma. The source writes the row unquoted, so an IMSI containing a comma would not read back as written.
- The counters `cnt_new_default` and `cnt_new_hlr` (src/main.rs:84-85) are `i32` in the source; the model's counters are unbounded. The ceiling keeps `cnt_new_default` at most 99999, and `cnt_new_hlr` could only overflow after 2^31 provisioned records. Neither width is modelled.
- Defaults.DefaultsTable.GetOrAllocate: models an overflow-checked build. The release-build wrap-around is `WrappingAllocation`, listed under Findings.

## Findings

| source | as written | input that shows it | evidently intended | confidence | as-written member | corrected member |
|---|---|---|---|---|---|---|
| src/main.rs:109-110 | `latest_default += 1` on a `u64`. In a release build it wraps at `u64::MAX`, and the wrapped value 0 passes `assert!(latest_default < 90500000)`. | A defaults row with DefaultMSISDN 18446744073709551615, then an input IMSI that is not in the table. | No number at or below the watermark is ever issued. Exhaustion fails the run. | low; not executed | Defaults.WrapAroundIssuesZero | Defaults.DefaultsTable.GetOrAllocate |
| src/main.rs:31, 65-70, 113 | The defaults file is opened without being created, read with `csv::Reader::from_reader`, which takes the first line as a header, and appended to with bare `imsi,n` rows. A file created empty never gets the header. | An empty `defaults.csv`. One run imports new IMSI A and appends `A,90400001`. The next run reads that line as the header and loads nothing. A new IMSI B then gets 90400001 as well. With two or more appended rows the reload instead fails with status 3. | Numbers issued in one run stay taken in the next one. | low; not executed | Defaults.HeaderlessReloadReissues | Defaults.NoReissueAfterReload |
