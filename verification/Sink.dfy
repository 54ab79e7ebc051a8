/** The cooperative output sink: writes captured during a turn, delivered at its end. */
module Sink {

  datatype Stream = Out | Err
  datatype Write = Write(stream: Stream, text: string)
  datatype Channel = Callback | Console

  class HostIoSinkBridge {
    var pending: seq<Write>
    var registered: bool

    constructor ()
      ensures pending == [] && !registered
    {
      pending, registered := [], false;
    }

    /** One captured write. */
    method WriteStream(stream: Stream, text: string)
      modifies this`pending
      ensures pending == old(pending) + [Write(stream, text)]
    {
      pending := pending + [Write(stream, text)];
    }

    method Drain() returns (writes: seq<Write>)
      modifies this`pending
      ensures writes == old(pending) && pending == []
    {
      writes := pending;
      pending := [];
    }

    method Register()
      modifies this`registered
      ensures registered
    {
      registered := true;
    }
  }
}
