/** The vocabulary of the call-monitor plug-in interface, and the events that
    `CMainApp` posts to its own event queue (shared/inc/plugin/callmonitor.h). */
module CallTypes {

  datatype CallType = TypeUnknown | TypeIncoming | TypeOutgoing

  datatype CallStatus =
    | StatusUnknown
    | Offering
    | WaitDialtone
    | Dialtone
    | Dialing
    | Proceeding
    | Ringback
    | Busy
    | Connected
    | Disconnected
    | Idle
    | OnHold
    | Conferenced

  datatype CallInfo = CallInfo(calledAddress: string, callerAddress: string,
                               calledName: string, callerName: string)

  /** One queued event. A resolver response carries the journal key of the call,
      which of its two parties was looked up, and the contact's displayed name. */
  datatype AppEvent =
    | NewCall(pid: nat, cid: nat, ctype: CallType, status: CallStatus)
    | CallStatusUpdate(pid: nat, cid: nat, status: CallStatus)
    | CallInfoUpdate(pid: nat, cid: nat, info: CallInfo)
    | ResolverResponse(key: int, data: int, sn: string)

  /** A lookup handed to the resolver thread. */
  datatype Request = Request(key: int, data: int, national: string, e164: string, online: bool)

  // Provider ids: the call-provider bit with the number of the plug-in.
  const TAPI_PID: nat := 0x1000_0010
  const FRITZ_PID: nat := 0x1000_0020

  const RESOLVE_CALLER := 1
  const RESOLVE_CALLED := 2

  /** The event queue of the application: producers append, the GUI thread takes
      from the front. */
  class EventQueue {
    var events: seq<AppEvent>

    constructor ()
      ensures events == []
    {
      events := [];
    }

    method Post(e: AppEvent)
      modifies this
      ensures events == old(events) + [e]
    {
      events := events + [e];
    }
  }
}
