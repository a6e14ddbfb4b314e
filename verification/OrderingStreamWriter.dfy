/** One session's queue, stream and clock (src/server/OrderingStreamWriter.cpp). */
module Ordering {
  import opened EnterpriseDiode
  import opened Streams
  import opened Reordering

  datatype WriterState = WriterState(queue: QueueState, timeLastUpdated: int)

  /** write: the clock is set first, so also when the queue then throws. */
  ghost predicate WriterWrites(c: Config, w: WriterState, p: Packet, now: int, next: WriterState, o: Outcome) {
    next.timeLastUpdated == now && Writes(c, w.queue, p, next.queue, o)
  }

  /** One more call on the writer's stream. */
  function Called(w: WriterState, call: Call): WriterState {
    w.(queue := w.queue.(calls := w.queue.calls + [call]))
  }

  class OrderingStreamWriter {
    const packetQueue: ReorderPackets
    const streamWrapper: Stream
    var timeLastUpdated: int

    ghost const Repr: set<object>
    ghost var State: WriterState

    ghost predicate Valid()
      reads Repr
    {
      && this in Repr && packetQueue in Repr && packetQueue.streamingRewrapper in Repr && streamWrapper in Repr
      && State == WriterState(packetQueue.State(streamWrapper), timeLastUpdated)
    }

    constructor (config: Config, stream: Stream, now: int)
      ensures Valid() && fresh(Repr - {stream})
      ensures packetQueue.config == config && streamWrapper == stream
      ensures State == WriterState(INITIAL_QUEUE.(calls := stream.calls), now)
    {
      var queue := new ReorderPackets(config);
      packetQueue := queue;
      streamWrapper := stream;
      timeLastUpdated := now;
      Repr := {this, queue, queue.streamingRewrapper, stream};
      State := WriterState(INITIAL_QUEUE.(calls := stream.calls), now);
    }

    method Write(data: Packet, now: int) returns (o: Outcome)
      requires Valid()
      modifies Repr
      ensures Valid() && WriterWrites(packetQueue.config, old(State), data, now, State, o)
    {
      timeLastUpdated := now;
      o := packetQueue.Write(data, streamWrapper);
      State := WriterState(packetQueue.State(streamWrapper), now);
    }

    method DeleteFile()
      requires Valid()
      modifies Repr
      ensures Valid() && State == Called(old(State), Call.DeleteFile)
    {
      streamWrapper.DeleteFile();
      State := Called(State, Call.DeleteFile);
    }

    method RenameFile()
      requires Valid()
      modifies Repr
      ensures Valid() && State == Called(old(State), Call.RenameFile)
    {
      streamWrapper.RenameFile();
      State := Called(State, Call.RenameFile);
    }
  }
}
