/**
  What the window shows: the lines appended to the log view, the entries
  written to the error-log file, the prompt above the input field and the
  label of the connect button. Each is a value here, and the functions below
  give the exact text the window displays for it.
*/
module View {
  import Validator

  /** Why a connection attempt was abandoned. */
  datatype ConnectFailure = NoPortSelected | CouldNotOpen

  datatype Line =
    | NoPorts                      // a refresh found no port
    | PortsRefreshed               // a refresh found at least one port
    | LostOrNoPorts                // a refresh found no port after a connection had been made
    | ConnectionLost               // the check timer found the port closed
    | Disconnected
    | ConnectedTo(port: string)
    | SuccessfullyConnected        // the earliest revision, which names no port
    | ConnectError(failure: ConnectFailure)
    | DivisionByZeroRefused
    | BadFormatRefused
    | Sent(text: string)
    | Response(text: string)
    | NoResponse                   // the current revision, for an empty response
    | NotConnected

  /** An entry of the error-log file (its time stamp is not modelled). */
  datatype ErrorEntry =
    | ToggleError(failure: ConnectFailure)
    | NoResponseAfter(calculation: string)

  datatype Prompt = SelectPort | ConnectFirst | EnterOperation

  datatype ButtonLabel = ConnectLabel | DisconnectLabel

  /** The widgets every revision switches with the connection. */
  datatype Controls = Controls(inputEnabled: bool, sendEnabled: bool, connectLabel: ButtonLabel)

  /**
    Connected: the input field and the send button are enabled and the button
    offers to disconnect. Otherwise both are disabled and it offers to connect.
  */
  function ControlsFor(connected: bool): Controls {
    Controls(connected, connected, if connected then DisconnectLabel else ConnectLabel)
  }

  /** What the check appends to the log for a verdict: nothing, or the refusal. */
  function Refusal(v: Validator.Verdict): seq<Line> {
    match v
    case Accepted => []
    case DivisionByZero => [DivisionByZeroRefused]
    case BadFormat => [BadFormatRefused]
  }

  /** The check appends at most one line, and none exactly when it accepts. */
  lemma RefusalLines(v: Validator.Verdict)
    ensures |Refusal(v)| <= 1
    ensures Refusal(v) == [] <==> v == Validator.Accepted
  {
  }

  function Reason(f: ConnectFailure): string {
    match f
    case NoPortSelected => "No COM port selected."
    case CouldNotOpen => "Could not connect! Check COM port and if it's already in use."
  }

  function Text(line: Line): string {
    match line
    case NoPorts => "No COM ports available."
    case PortsRefreshed => "COM ports refreshed."
    case LostOrNoPorts => "<b>Connection lost or no COM ports available.</b>"
    case ConnectionLost => "<b>Connection lost. Please reconnect the device.</b>"
    case Disconnected => "Disconnected."
    case ConnectedTo(port) => "Connected to " + port + "."
    case SuccessfullyConnected => "Successfully connected."
    case ConnectError(f) => "Error: " + Reason(f)
    case DivisionByZeroRefused => "Error: Division by zero is not allowed!"
    case BadFormatRefused => "Error: Invalid input format! Use a+b | a-b | a*b | a/b."
    case Sent(t) => "Sent: " + t
    case Response(t) => "Response: " + t
    case NoResponse => "Response: No response from \U{00B5}C."
    case NotConnected => "Error: Not connected!"
  }

  function ErrorText(e: ErrorEntry): string {
    match e
    case ToggleError(f) => "toggleConnection error: " + Reason(f)
    case NoResponseAfter(c) => "No response from \U{00B5}C after sending: " + c
  }

  function PromptText(p: Prompt): string {
    match p
    case SelectPort => "Select COM Port and Connect:"
    case ConnectFirst => "Please connect to the device first."
    case EnterOperation => "Please enter the operation to perform. Format: a+b | a-b | a*b | a/b"
  }

  function LabelText(b: ButtonLabel): string {
    match b
    case ConnectLabel => "Connect"
    case DisconnectLabel => "Disconnect"
  }

  /** The two refusal messages differ, so the log tells which rule refused an input. */
  lemma RefusalTextsDiffer()
    ensures Text(DivisionByZeroRefused) != Text(BadFormatRefused)
  {
    assert |Text(DivisionByZeroRefused)| != |Text(BadFormatRefused)|;
  }

  /**
    The line for a missing response reads exactly like the line for a device
    that answers with that sentence, so the log view alone cannot tell them
    apart.
  */
  lemma NoResponseReadsLikeAPayload()
    ensures Text(NoResponse) == Text(Response("No response from \U{00B5}C."))
  {
  }
}
