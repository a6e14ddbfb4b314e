/** The output stream as the server sees it: the calls made on it
    (src/server/StreamInterface.hpp). */
module Streams {
  import opened Common

  datatype Call = Write(data: BytesBuffer) | SetStoredFilename(name: string) | RenameFile | DeleteFile

  /** The bytes a stream holds after a sequence of calls. */
  function Content(calls: seq<Call>): BytesBuffer {
    if calls == [] then []
    else
      var last := calls[|calls| - 1];
      Content(calls[..|calls| - 1]) + if last.Write? then last.data else []
  }

  /** A stream on which nothing but writing has happened. */
  predicate OnlyWrites(calls: seq<Call>) {
    forall c | c in calls :: c.Write?
  }

  lemma ContentAppend(calls: seq<Call>, c: Call)
    ensures Content(calls + [c]) == Content(calls) + if c.Write? then c.data else []
  {
    assert (calls + [c])[..|calls|] == calls;
  }

  class Stream {
    var calls: seq<Call>

    constructor ()
      ensures calls == []
    {
      calls := [];
    }

    method Write(data: BytesBuffer)
      modifies this
      ensures calls == old(calls) + [Call.Write(data)]
    {
      calls := calls + [Call.Write(data)];
    }

    method SetStoredFilename(name: string)
      modifies this
      ensures calls == old(calls) + [Call.SetStoredFilename(name)]
    {
      calls := calls + [Call.SetStoredFilename(name)];
    }

    method RenameFile()
      modifies this
      ensures calls == old(calls) + [Call.RenameFile]
    {
      calls := calls + [Call.RenameFile];
    }

    method DeleteFile()
      modifies this
      ensures calls == old(calls) + [Call.DeleteFile]
    {
      calls := calls + [Call.DeleteFile];
    }
  }
}
