/**
 When a connection is used for another request: the steps of the connection state machine that
 touch the request body, the keep-alive flag, the error handler and local redirects.
 */
module KeepAlive {

  datatype Phase = RequestStart | Read | HandleRequest | ReadPost | ResponseStart | ResponseEnd | Error | Close

  /** Which configured handler answers an error. */
  datatype Handler = NoHandler | ErrorHandler | ErrorHandler404

  const CHUNKED: int := -1
  const UNKNOWN: int := -2
  const MAX_LOOPS: nat := 5

  // ---------- what each step makes of a connection ----------

  /** A connection, with the account of its request. */
  datatype View = View(phase: Phase, keepAlive: bool, contentLength: int, bodyIn: nat, status: int, savedStatus: int,
                       loops: nat, requests: nat, acc: Account)

  /** What is true of the request, whatever the connection knows of it. */
  datatype Account = Account(
    wire: nat,        // length of the body on the wire, as far as it is known
    taken: nat,       // how much of it has been taken off the connection
    ended: bool,      // all of it has been taken off, with its framing
    dropped: bool,    // the body has been given up in favour of another response
    errors: nat,      // times the error handler was entered for this request
    redirects: nat,   // local redirects followed for this request
    unread: nat)      // times the connection was kept although some body was unread

  /** The counters speak of the body on the wire, until it is given up. */
  predicate Accounts(c: View) {
    && (c.acc.dropped ==>
          c.contentLength == UNKNOWN || (c.contentLength == 0 && c.bodyIn == 0 && (c.keepAlive ==> c.acc.ended)))
    && (!c.acc.dropped && c.contentLength >= 0 ==>
          c.contentLength == c.acc.wire && c.bodyIn == c.acc.taken <= c.acc.wire &&
          (c.acc.ended <==> c.acc.taken == c.acc.wire))
    && (c.contentLength == CHUNKED ==> !c.acc.dropped && c.bodyIn == c.acc.taken && !c.acc.ended)
    && (c.contentLength == UNKNOWN ==> !c.keepAlive)
    && c.contentLength >= UNKNOWN
  }

  predicate Sound(c: View) {
    match c
    case View(_, keepAlive, contentLength, bodyIn, _, savedStatus, loops, _, acc) =>
      && Accounts(c) && (keepAlive && contentLength == bodyIn ==> acc.ended)
      && acc.errors == (if savedStatus == 0 then 0 else 1)
      && acc.redirects <= loops && acc.redirects <= MAX_LOOPS && acc.unread == 0
  }

  function Begun(c: View): (d: View)
    requires Sound(c)
    ensures Sound(d)
  {
    c.(phase := Read, requests := c.requests + 1, loops := 0, acc := c.acc.(redirects := 0))
  }

  function Framed(c: View, keep: bool, length: int): (d: View)
    requires Sound(c) && length >= CHUNKED && c.bodyIn == 0
    ensures Sound(d)
  {
    c.(phase := if length == 0 then HandleRequest else ReadPost, keepAlive := keep, contentLength := length,
       acc := c.acc.(wire := if length >= 0 then length else 0, taken := 0, ended := length == 0, dropped := false))
  }

  /** Once the body is there the request is handled. */
  function Onward(phase: Phase, ready: bool): Phase { if ready && phase == ReadPost then HandleRequest else phase }

  function Fed(c: View, available: nat): (d: View)
    requires Sound(c) && c.contentLength >= 0
    ensures Sound(d)
  {
    var n := if c.contentLength - c.bodyIn <= available then c.contentLength - c.bodyIn else available;
    c.(phase := Onward(c.phase, c.bodyIn + n == c.contentLength), bodyIn := c.bodyIn + n,
       acc := if c.acc.dropped then c.acc else c.acc.(taken := c.acc.taken + n, ended := c.acc.taken + n == c.acc.wire))
  }

  function Continued(c: View, n: nat): (d: View)
    requires Sound(c) && c.contentLength == CHUNKED
    ensures Sound(d)
  {
    c.(bodyIn := c.bodyIn + n, acc := c.acc.(taken := c.acc.taken + n))
  }

  function Concluded(c: View, n: nat, trailersTooLong: bool): (d: View)
    requires Sound(c) && c.contentLength == CHUNKED
    ensures Sound(d)
  {
    c.(phase := Onward(c.phase, true), keepAlive := c.keepAlive && !trailersTooLong, contentLength := c.bodyIn + n,
       bodyIn := c.bodyIn + n, acc := c.acc.(wire := c.acc.taken + n, taken := c.acc.taken + n, ended := true))
  }

  function Broken(c: View, code: int, headersSent: bool): View {
    if headersSent then c.(keepAlive := false, phase := Error) else c.(keepAlive := false, status := code)
  }

  function Tunnelled(c: View): View { c.(contentLength := UNKNOWN, keepAlive := false) }

  function BodyDropped(c: View): (d: View)
    requires Sound(c)
    ensures Sound(d) && d.contentLength == 0 && d.bodyIn == 0 && (d.keepAlive ==> c.keepAlive && c.acc.ended)
  {
    if c.contentLength == 0 then c
    else
      c.(keepAlive := c.keepAlive && c.contentLength == c.bodyIn, contentLength := 0, bodyIn := 0,
         acc := c.acc.(dropped := true))
  }

  /** The error goes to a handler. */
  predicate Handled(c: View, direct: bool, handler: Handler) {
    direct && c.savedStatus == 0 && c.status >= 400 &&
    (handler.ErrorHandler? || (handler.ErrorHandler404? && (c.status == 404 || c.status == 403)))
  }

  /**
   The status of the response: after an error handler that of the error, unless the 404 handler has
   found something.
   */
  function Answered(c: View, direct: bool): int {
    if direct && c.savedStatus > 0 then c.savedStatus
    else if direct && c.savedStatus < 0 && (c.status == 404 || c.status == 403) then -c.savedStatus
    else if c.status == 0 then 200 else c.status
  }

  function Closed(c: View, direct: bool, handler: Handler): (d: View)
    requires Sound(c)
    ensures Sound(d)
  {
    if !Handled(c, direct, handler) then c.(phase := ResponseStart, status := Answered(c, direct))
    else
      var d := if handler.ErrorHandler? then BodyDropped(c) else c;
      d.(savedStatus := if handler.ErrorHandler? then c.status else -c.status, status := 0,
         acc := d.acc.(errors := c.acc.errors + 1))
  }

  /**
   A handler is entered at most once for a request, with no status. The one for all errors also takes the body away.
   Otherwise the response begins. After a handler its status is that of the error, except that what the handler
   for missing pages has found stands.
   */
  lemma ClosedLaw(c: View, direct: bool, handler: Handler)
    requires Sound(c)
    ensures var d := Closed(c, direct, handler);
      && d.acc.errors <= 1 && (d.keepAlive ==> c.keepAlive)
      && if Handled(c, direct, handler) then
           && c.acc.errors == 0 && d.acc.errors == 1 && d.status == 0 && d.phase == c.phase
           && d.savedStatus == (if handler.ErrorHandler? then c.status else -c.status)
           && (handler.ErrorHandler? ==> d.contentLength == 0 && d.bodyIn == 0)
           && (forall next: View, x: bool, h: Handler {:trigger Handled(next, x, h)} ::
                 next.savedStatus == d.savedStatus ==> !Handled(next, x, h))
         else
           && d == c.(phase := ResponseStart, status := d.status) && d.status != 0
           && (direct && c.savedStatus > 0 ==> d.status == c.savedStatus)
           && (direct && c.savedStatus < 0 && (c.status == 404 || c.status == 403) ==> d.status == -c.savedStatus)
           && (!direct || c.savedStatus == 0 || (c.savedStatus < 0 && c.status != 404 && c.status != 403) ==>
                 d.status == if c.status == 0 then 200 else c.status)
  {
  }

  function Rerouted(c: View): (d: View)
    requires Sound(c)
    ensures Sound(d)
  {
    if c.loops >= MAX_LOOPS then c.(loops := c.loops + 1, status := 500)
    else
      var d := BodyDropped(c);
      d.(loops := c.loops + 1, acc := d.acc.(redirects := c.acc.redirects + 1))
  }

  /** Nothing is left of the request. */
  function Fresh(c: View): View {
    View(c.phase, c.keepAlive, 0, 0, 0, 0, 0, c.requests, Account(0, 0, true, false, 0, 0, c.acc.unread))
  }

  function Completed(c: View): (d: View)
    requires Sound(c)
    ensures Sound(d)
  {
    if c.keepAlive && c.contentLength == c.bodyIn && c.phase != Error
    then Fresh(c.(phase := RequestStart, acc := c.acc.(unread := c.acc.unread + if c.acc.ended then 0 else 1)))
    else c.(keepAlive := false, phase := Close)
  }

  /** One event; one that the state does not allow for is ignored. */
  function After(c: View, e: Event): (d: View)
    requires Sound(c)
    ensures Sound(d)
  {
    match e
    case Next => if c.phase == RequestStart then Begun(c) else c
    case Parsed(keep, length) =>
      if c.phase == Read && length >= CHUNKED && c.bodyIn == 0 && c.savedStatus == 0 then Framed(c, keep, length) else c
    case Fixed(n) => if c.contentLength >= 0 then Fed(c, n) else c
    case Chunk(n, last, long) =>
      if c.contentLength != CHUNKED then c else if last then Concluded(c, n, long) else Continued(c, n)
    case BodyError(code, sent) => Broken(c, code, sent)
    case Upgraded => Tunnelled(c)
    case Decided(direct, handler, code) => Closed(c.(status := code), direct, handler)
    case Redirected => Rerouted(c)
    case Disabled => c.(keepAlive := false)
    case Failed => c.(phase := Error)
    case Done => Completed(c)
  }

  /** A run. */
  function AfterAll(c: View, events: seq<Event>): (d: View)
    requires Sound(c)
    ensures Sound(d)
    decreases |events|
  {
    if events == [] then c else AfterAll(After(c, events[0]), events[1..])
  }

  lemma {:induction false} RunSplits(c: View, events: seq<Event>, i: nat)
    requires Sound(c) && i < |events|
    ensures AfterAll(c, events[..i + 1]) == After(AfterAll(c, events[..i]), events[i])
    decreases i
  {
    if i > 0 {
      RunSplits(After(c, events[0]), events[1..], i - 1);
      assert events[1..][..i] == events[..i + 1][1..] && events[1..][..i - 1] == events[..i][1..];
    } else {
      assert events[..1][1..] == [];
    }
  }

  /**
   In every run: a connection is used for another request only at the end of a response, when it was to be kept and
   its body was read to the end, and then nothing is left of the request before.
   */
  lemma ReusedWhenRead(c: View, events: seq<Event>, i: nat)
    requires Sound(c) && i < |events|
    ensures Reused(AfterAll(c, events[..i]), events[i], AfterAll(c, events[..i + 1]))
  {
    RunSplits(c, events, i);
    StepReuses(AfterAll(c, events[..i]), events[i]);
  }

  predicate Reused(b: View, e: Event, d: View) {
    d.phase == RequestStart && b.phase != RequestStart ==>
      e.Done? && b.keepAlive && b.acc.ended && b.contentLength == b.bodyIn && b.phase != Error &&
      d == Fresh(d) && d.requests == b.requests
  }

  lemma StepReuses(c: View, e: Event)
    requires Sound(c)
    ensures Reused(c, e, After(c, e))
    ensures After(c, e).keepAlive && !c.keepAlive ==> e.Parsed? && e.keep && c.phase == Read
  {
  }

  /** Only the parser makes a connection one that is to be kept. */
  lemma KeptByParser(c: View, events: seq<Event>, i: nat)
    requires Sound(c) && i < |events|
    ensures var b, d := AfterAll(c, events[..i]), AfterAll(c, events[..i + 1]);
      d.keepAlive && !b.keepAlive ==> events[i].Parsed? && events[i].keep && b.phase == Read
  {
    RunSplits(c, events, i);
    StepReuses(AfterAll(c, events[..i]), events[i]);
  }

  class Connection {
    var phase: Phase
    var keepAlive: bool
    var contentLength: int      // CHUNKED, UNKNOWN, or the number of bytes
    var bodyIn: nat             // bytes put on the request content queue since it was reset
    var status: int
    var savedStatus: int        // status the error handler was called for; negative for the 404 handler
    var loops: nat
    var requests: nat

    ghost var acc: Account

    ghost predicate Valid()
      reads this
    {
      Sound(Now())
    }

    ghost function Now(): View
      reads this
    {
      View(phase, keepAlive, contentLength, bodyIn, status, savedStatus, loops, requests, acc)
    }

    constructor ()
      ensures Valid() && phase == RequestStart && requests == 0 && !keepAlive && Now() == Fresh(Now())
    {
      phase, keepAlive, contentLength, bodyIn := RequestStart, false, 0, 0;
      status, savedStatus, loops, requests := 0, 0, 0, 0;
      acc := Account(0, 0, true, false, 0, 0, 0);
    }

    method StartRequest()
      requires Valid() && phase == RequestStart
      modifies this
      ensures Valid() && Now() == Begun(old(Now()))
    {
      requests, loops := requests + 1, 0;
      acc := acc.(redirects := 0);
      phase := Read;
    }

    /** The parser alone may set keepAlive; it learns how the body is framed. */
    method Parse(keep: bool, length: int)
      requires Valid() && phase == Read && length >= CHUNKED && bodyIn == 0 && savedStatus == 0
      modifies this
      ensures Valid() && Now() == Framed(old(Now()), keep, length)
    {
      keepAlive, contentLength := keep, length;
      acc := acc.(wire := if length >= 0 then length else 0, taken := 0, ended := length == 0, dropped := false);
      phase := if length == 0 then HandleRequest else ReadPost;
    }

    /** Takes what is there of a body of known length. */
    method ReadFixed(available: nat) returns (ready: bool)
      requires Valid() && contentLength >= 0
      modifies this
      ensures Valid() && keepAlive == old(keepAlive) && ready == (bodyIn == contentLength)
      ensures Now() == Fed(old(Now()), available)
      ensures bodyIn == if old(bodyIn) + available <= contentLength then old(bodyIn) + available else contentLength
      ensures !acc.dropped && ready ==> acc.ended
    {
      var n := if contentLength - bodyIn <= available then contentLength - bodyIn else available;
      bodyIn := bodyIn + n;
      if !acc.dropped { acc := acc.(taken := acc.taken + n, ended := acc.taken + n == acc.wire); }
      ready := bodyIn == contentLength;
      if ready && phase == ReadPost { phase := HandleRequest; }
    }

    /** A piece of a chunked body; at the last chunk its length becomes known. */
    method ReadChunked(n: nat, last: bool, trailersTooLong: bool)
      requires Valid() && contentLength == CHUNKED
      modifies this
      ensures Valid() && (last <==> acc.ended) && (last ==> contentLength == bodyIn) && bodyIn == old(bodyIn) + n
      ensures keepAlive == (old(keepAlive) && !(last && trailersTooLong))
      ensures Now() == if last then Concluded(old(Now()), n, trailersTooLong) else Continued(old(Now()), n)
    {
      bodyIn := bodyIn + n;
      acc := acc.(taken := acc.taken + n);
      if last {
        if trailersTooLong { keepAlive := false; }
        contentLength := bodyIn;
        acc := acc.(wire := acc.taken, ended := true);
        if phase == ReadPost { phase := HandleRequest; }
      }
    }

    /** The body cannot be read or stored. */
    method ReadError(code: int, headersSent: bool)
      requires Valid()
      modifies this
      ensures Valid() && !keepAlive
      ensures headersSent ==> phase == Error && status == old(status)
      ensures !headersSent ==> phase == old(phase) && status == code
      ensures Now() == Broken(old(Now()), code, headersSent)
    {
      keepAlive := false;
      if headersSent {
        phase := Error;
        return;
      }
      status := code;
    }

    /** From here on the connection is a transparent proxy. */
    method Upgrade()
      requires Valid()
      modifies this
      ensures Valid() && !keepAlive && contentLength == UNKNOWN && Now() == Tunnelled(old(Now()))
    {
      contentLength := UNKNOWN;
      keepAlive := false;
    }

    /** Gives up the rest of the body, and with it the connection if there is a rest. */
    method DropBody()
      requires Valid()
      modifies this`keepAlive, this`contentLength, this`bodyIn, this`acc
      ensures Valid() && contentLength == 0 && bodyIn == 0 && (keepAlive ==> acc.ended)
      ensures keepAlive <==> old(keepAlive && (contentLength == 0 || contentLength == bodyIn))
      ensures Now() == BodyDropped(old(Now()))
    {
      if contentLength != 0 {
        if contentLength != bodyIn { keepAlive := false; }
        contentLength := 0;
        bodyIn := 0;
        acc := acc.(dropped := true);
      }
    }

    /** The response is decided; an error may go to the configured handler, once per request. */
    method Finished(direct: bool, handler: Handler) returns (again: bool)
      requires Valid()
      modifies this
      ensures Now() == Closed(old(Now()), direct, handler) && Valid() && again == Handled(old(Now()), direct, handler)
    {
      if direct {
        if savedStatus != 0 {
          if savedStatus > 0 {
            status := savedStatus;
          } else if status == 404 || status == 403 {
            status := -savedStatus;
          }
        } else if status >= 400 {
          again := Delegate(handler);
          if again { return; }
        }
      }
      if status == 0 { status := 200; }
      phase := ResponseStart;
      again := false;
    }

    /** An error goes to the handler there is for it. */
    method Delegate(handler: Handler) returns (again: bool)
      requires Valid() && savedStatus == 0 && status >= 400
      modifies this
      ensures Valid() && again == Handled(old(Now()), true, handler)
      ensures Now() == if again then Closed(old(Now()), true, handler) else old(Now())
    {
      if handler.ErrorHandler? {
        DropBody();
        savedStatus := status;
      } else if handler.ErrorHandler404? && (status == 404 || status == 403) {
        savedStatus := -status;
      }
      if savedStatus != 0 {
        acc := acc.(errors := acc.errors + 1);
        status := 0;
        return true;
      }
      again := false;
    }

    /** A local redirect starts the request over without its body, at most five times. */
    method LocalRedirect() returns (followed: bool)
      requires Valid()
      modifies this
      ensures Valid() && (keepAlive ==> old(keepAlive))
      ensures followed <==> old(loops) < 5
      ensures followed ==> acc.redirects == old(acc.redirects) + 1 <= 5 && contentLength == 0 && bodyIn == 0
      ensures !followed ==> status == 500 && acc.redirects == old(acc.redirects)
      ensures Now() == Rerouted(old(Now()))
    {
      loops := loops + 1;
      if loops > MAX_LOOPS {
        status := 500;
        return false;
      }
      DropBody();
      acc := acc.(redirects := acc.redirects + 1);
      followed := true;
    }

    /** Anything else may only clear the flag. */
    method Disable()
      requires Valid()
      modifies this`keepAlive
      ensures Valid() && Now() == old(Now()).(keepAlive := false)
    {
      keepAlive := false;
    }

    method Fail()
      requires Valid()
      modifies this`phase
      ensures Valid() && Now() == old(Now()).(phase := Error)
    {
      phase := Error;
    }

    /** Forgets everything about the request. */
    method Reset()
      requires acc.unread == 0
      modifies this
      ensures Valid() && Now() == Fresh(old(Now()))
    {
      contentLength, bodyIn, savedStatus, status, loops := 0, 0, 0, 0, 0;
      acc := Account(0, 0, true, false, 0, 0, acc.unread);
    }

    /** Another request is read only if the body of this one has been read in full. */
    method ResponseDone() returns (again: bool)
      requires Valid()
      modifies this
      ensures Valid() && again == (phase == RequestStart) && (!again ==> phase == Close)
      ensures again <==> old(keepAlive && contentLength == bodyIn && phase != Error)
      ensures again ==> old(acc.ended)
      ensures Now() == Completed(old(Now()))
    {
      if contentLength != bodyIn || phase == Error { keepAlive := false; }
      again := keepAlive;
      if keepAlive {
        acc := acc.(unread := acc.unread + if acc.ended then 0 else 1);
        Reset();
        phase := RequestStart;
      } else {
        phase := Close;
      }
    }

    /** Something happens to the body. */
    method StepBody(e: Event)
      requires Valid() && (e.Parsed? || e.Fixed? || e.Chunk? || e.BodyError? || e.Upgraded?)
      modifies this
      ensures Valid() && Now() == After(old(Now()), e)
    {
      match e {
        case Parsed(keep, length) =>
          if phase == Read && length >= CHUNKED && bodyIn == 0 && savedStatus == 0 { Parse(keep, length); }
        case Fixed(n) =>
          if contentLength >= 0 { var _ := ReadFixed(n); }
        case Chunk(n, last, long) =>
          if contentLength == CHUNKED { ReadChunked(n, last, long); }
        case BodyError(code, sent) => ReadError(code, sent);
        case Upgraded => Upgrade();
      }
    }

    method Step(e: Event)
      requires Valid()
      modifies this
      ensures Valid() && Now() == After(old(Now()), e) && Reused(old(Now()), e, Now())
    {
      StepReuses(Now(), e);
      match e {
        case Next =>
          if phase == RequestStart { StartRequest(); }
        case Decided(direct, handler, code) =>
          status := code;
          var _ := Finished(direct, handler);
        case Redirected =>
          var _ := LocalRedirect();
        case Disabled => Disable();
        case Failed => Fail();
        case Done =>
          var _ := ResponseDone();
        case _ => StepBody(e);
      }
    }

    /** Whatever happens in whatever order. */
    method Run(events: seq<Event>)
      requires Valid()
      modifies this
      ensures Valid() && Now() == AfterAll(old(Now()), events)
      ensures acc.errors <= 1 && acc.redirects <= 5 && acc.unread == 0
    {
      for i := 0 to |events|
        invariant Valid() && AfterAll(Now(), events[i..]) == AfterAll(old(Now()), events)
      {
        assert events[i..][1..] == events[i + 1..];
        Step(events[i]);
      }
    }
  }

  datatype Event =
    | Next
    | Parsed(keep: bool, length: int)
    | Fixed(n: nat)
    | Chunk(n: nat, last: bool, trailersTooLong: bool)
    | BodyError(code: int, headersSent: bool)
    | Upgraded
    | Decided(direct: bool, handler: Handler, code: int)
    | Redirected
    | Disabled
    | Failed
    | Done
}
