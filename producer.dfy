/** The producer loop of `read_and_produce_odds`: every ODD file is loaded,
    normalised and sent to the log on its own, and a failure skips only that
    file. */
module Producer {
  import opened OddValues
  import opened Normalizer

  /** What one iteration reports for its file. `Sent` carries the `ODD_ID`
      printed after the send. `Failed` is the error branch; `appended` tells
      whether the record had already been sent before the error was raised. */
  datatype FileOutcome = Sent(oddId: Val) | Failed(appended: bool)

  /** `NoFilesFound` is the early return when the file list is empty. */
  datatype Report = NoFilesFound | Processed(outcomes: seq<FileOutcome>)

  /** The record one iteration hands to the log, given what the steps of
      the `try` before the send produced for its file: `None` when one of
      them raised (opening, parsing, an `item()` that raises, or a value that
      `json.dumps` rejects). Normalisation of a loaded value cannot fail in
      this value model. The send itself refuses a message with neither
      key nor value, so an empty document (Python's None) is not buffered
      either. */
  function Buffered(file: Option<Val>): Option<Val> {
    match file
    case None => None
    case Some(data) =>
      var clean := Normalize(data);
      if clean == Plain(Null) then None else Some(clean)
  }

  /** The outcome for one file. A buffered record is followed by printing its
      `ODD_ID`, which calls `get`; only a dict has it, so any other document
      is reported as an error after it has already been sent. */
  function OutcomeOf(file: Option<Val>): FileOutcome {
    match Buffered(file)
    case None => Failed(false)
    case Some(clean) => if clean.Map? then Sent(Get(clean.entries, "ODD_ID")) else Failed(true)
  }

  /** True of the outcomes whose record reached the log. */
  predicate Appended(o: FileOutcome) {
    o.Sent? || o.appended
  }

  /** The records a run appends to the log: the buffered records of the
      files, in file order. */
  function Produced(files: seq<Option<Val>>): (r: seq<Val>)
    ensures |r| <= |files|
    ensures forall i :: 0 <= i < |r| ==> Clean(r[i]) && r[i] != Plain(Null)
  {
    if files == [] then []
    else
      Produced(files[..|files| - 1]) +
      match Buffered(files[|files| - 1]) case Some(clean) => [clean] case None => []
  }

  /** How many files produced a record to send. */
  function CountBuffered(files: seq<Option<Val>>): nat {
    if files == [] then 0
    else CountBuffered(files[1..]) + if Buffered(files[0]).Some? then 1 else 0
  }

  /** How many outcomes say that their record reached the log. */
  function CountAppended(os: seq<FileOutcome>): nat {
    if os == [] then 0
    else CountAppended(os[1..]) + if Appended(os[0]) then 1 else 0
  }

  /** The producer's side of the log: the records it has sent, in order. */
  class OddProducer {
    var log: seq<Val>

    constructor ()
      ensures log == []
    {
      log := [];
    }

    /** `read_and_produce_odds`, given what loading each file returns. */
    method ReadAndProduceOdds(files: seq<Option<Val>>) returns (report: Report)
      modifies this
      ensures files == [] ==> report == NoFilesFound
      ensures files != [] ==> report.Processed? && |report.outcomes| == |files| &&
                              forall i :: 0 <= i < |files| ==> report.outcomes[i] == OutcomeOf(files[i])
      ensures log == old(log) + Produced(files)
    {
      if files == [] {
        return NoFilesFound;
      }
      var outcomes: seq<FileOutcome> := [];
      var i := 0;
      while i < |files|
        invariant 0 <= i <= |files|
        invariant |outcomes| == i
        invariant forall j :: 0 <= j < i ==> outcomes[j] == OutcomeOf(files[j])
        invariant log == old(log) + Produced(files[..i])
      {
        assert files[..i + 1][..i] == files[..i];
        match files[i] {
          case None =>
            outcomes := outcomes + [Failed(false)];
          case Some(data) =>
            var clean := Normalize(data);
            if clean == Plain(Null) {
              outcomes := outcomes + [Failed(false)];
            } else {
              log := log + [clean];
              if clean.Map? {
                outcomes := outcomes + [Sent(Get(clean.entries, "ODD_ID"))];
              } else {
                outcomes := outcomes + [Failed(true)];
              }
            }
        }
        i := i + 1;
      }
      assert files[..i] == files;
      return Processed(outcomes);
    }
  }

  /** The log contents of two batches run one after the other are those of
      the joined batch. */
  lemma {:induction false} ProducedAppend(a: seq<Option<Val>>, b: seq<Option<Val>>)
    ensures Produced(a + b) == Produced(a) + Produced(b)
  {
    if b == [] {
      assert a + b == a;
    } else {
      var n := |b| - 1;
      assert (a + b)[..|a + b| - 1] == a + b[..n];
      ProducedAppend(a, b[..n]);
    }
  }

  /** A file whose iteration raises before the send changes nothing: the log
      is what it would be had the file not been in the batch. */
  lemma FailedFileIsSkipped(files: seq<Option<Val>>, k: nat)
    requires k < |files| && Buffered(files[k]).None?
    ensures Produced(files) == Produced(files[..k] + files[k + 1..])
  {
    var pre, mid, post := files[..k], [files[k]], files[k + 1..];
    NoneProducesNothing(files[k]);
    ProducedDropsNothing(pre, mid, post);
    Split(files, k);
  }

  lemma Split(files: seq<Option<Val>>, k: nat)
    requires k < |files|
    ensures files == files[..k] + [files[k]] + files[k + 1..]
  {
  }

  lemma NoneProducesNothing(f: Option<Val>)
    requires Buffered(f).None?
    ensures Produced([f]) == []
  {
    assert [f][..0] == [];
  }

  lemma ProducedDropsNothing(pre: seq<Option<Val>>, mid: seq<Option<Val>>, post: seq<Option<Val>>)
    requires Produced(mid) == []
    ensures Produced(pre + mid + post) == Produced(pre + post)
  {
    ProducedAppend(pre + mid, post);
    ProducedAppend(pre, mid);
    ProducedAppend(pre, post);
  }

  /** A record is in the log exactly when some file loaded and normalised to
      it, and it is not an empty document. */
  lemma {:induction false} ProducedIff(files: seq<Option<Val>>, x: Val)
    ensures x in Produced(files) <==>
            exists i :: 0 <= i < |files| && files[i].Some? && x == Normalize(files[i].value) && x != Plain(Null)
  {
    if files != [] {
      var n := |files| - 1;
      ProducedIff(files[..n], x);
      assert forall i :: 0 <= i < n ==> files[..n][i] == files[i];
    }
  }

  /** The log grows by one record per file that produced one. */
  lemma {:induction false} ProducedCount(files: seq<Option<Val>>)
    ensures |Produced(files)| == CountBuffered(files)
  {
    if files != [] {
      assert files == [files[0]] + files[1..];
      ProducedAppend([files[0]], files[1..]);
      ProducedCount(files[1..]);
      assert [files[0]][..0] == [];
    }
  }

  /** The report accounts for the log: the outcomes that say their record was
      sent are as many as the records appended. */
  lemma {:induction false} ReportAccountsForLog(files: seq<Option<Val>>, os: seq<FileOutcome>)
    requires |os| == |files| && forall i :: 0 <= i < |files| ==> os[i] == OutcomeOf(files[i])
    ensures CountAppended(os) == |Produced(files)|
  {
    ProducedCount(files);
    CountsAgree(files, os);
  }

  lemma {:induction false} CountsAgree(files: seq<Option<Val>>, os: seq<FileOutcome>)
    requires |os| == |files| && forall i :: 0 <= i < |files| ==> os[i] == OutcomeOf(files[i])
    ensures CountAppended(os) == CountBuffered(files)
  {
    if files != [] {
      CountsAgree(files[1..], os[1..]);
    }
  }
}
