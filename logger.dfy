/**
 * The output sink: informational and error lines, and the in-memory
 * Logger that keeps every line it is given.
 */
module Output {
  import opened Wrappers

  /** writeInfo renders its message as an info line. */
  function InfoLine(message: string): string
  {
    "<info>" + message + "</info>"
  }

  /** writeError renders its message as an error line. */
  function ErrorLine(message: string): string
  {
    "<error>" + message + "</error>"
  }

  /** An info line carries its message between the tags. */
  lemma InfoLineParts(message: string)
    ensures |InfoLine(message)| == |message| + 13
    ensures InfoLine(message)[1] == 'i' && InfoLine(message)[6..|message| + 6] == message
  {
  }

  /** An error line carries its message between the tags. */
  lemma ErrorLineParts(message: string)
    ensures |ErrorLine(message)| == |message| + 15
    ensures ErrorLine(message)[1] == 'e' && ErrorLine(message)[7..|message| + 7] == message
  {
  }

  /** Info and error lines never coincide, and each determines its message. */
  lemma LinesDistinguishable(a: string, b: string)
    ensures InfoLine(a) != ErrorLine(b)
    ensures InfoLine(a) == InfoLine(b) <==> a == b
    ensures ErrorLine(a) == ErrorLine(b) <==> a == b
  {
    InfoLineParts(a);
    InfoLineParts(b);
    ErrorLineParts(a);
    ErrorLineParts(b);
    assert InfoLine(a)[1] != ErrorLine(b)[1];
    if InfoLine(a) == InfoLine(b) {
      assert a == InfoLine(a)[6..|a| + 6];
    }
    if ErrorLine(a) == ErrorLine(b) {
      assert a == ErrorLine(a)[7..|a| + 7];
    }
  }

  /** An append-only log of the lines written to the sink. */
  class Logger {
    var log: seq<string>

    /** A new logger has an empty log. */
    constructor ()
      ensures log == []
    {
      log := [];
    }

    /** write: appends the line at the end, earlier lines unchanged. */
    method Write(message: string)
      modifies this
      ensures log == old(log) + [message]
      ensures |log| == |old(log)| + 1 && log[..|old(log)|] == old(log)
    {
      log := log + [message];
    }

    /** writeInfo. */
    method WriteInfo(message: string)
      modifies this
      ensures log == old(log) + [InfoLine(message)]
    {
      Write(InfoLine(message));
    }

    /** writeError. */
    method WriteError(message: string)
      modifies this
      ensures log == old(log) + [ErrorLine(message)]
    {
      Write(ErrorLine(message));
    }

    /** getLog(): the whole log. */
    method GetLog() returns (lines: seq<string>)
      ensures lines == log
    {
      lines := log;
    }

    /** getLog(index): the entry at `index`, nothing when there is none. */
    method GetLogAt(index: int) returns (line: Option<string>)
      ensures line.Some? <==> 0 <= index < |log|
      ensures line.Some? ==> line.value == log[index]
    {
      if 0 <= index < |log| {
        line := Some(log[index]);
      } else {
        line := None;
      }
    }

    /** hasMessage: whether the line occurs anywhere in the log. */
    method HasMessage(message: string) returns (b: bool)
      ensures b <==> exists k :: 0 <= k < |log| && log[k] == message
    {
      var lines := GetLog();
      b := message in lines;
    }
  }

}
