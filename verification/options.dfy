/** Routing, retry and timeout policy of a message. Each message type gets
    defaults when its message is built; a caller's overrides then replace
    exactly the settings they carry. The transport that acts on the policy
    is not part of this model: the policy is data handed to it. */
module OptionsOverlay {
  import opened Common
  import opened Wire

  /** Where the transport sends a request. The two policies this layer
      chooses are named; the transport's others are told apart by a tag. */
  datatype ReadFrom = FromMaster | FromMasterThenReplica | FromOther(tag: nat)

  /** The members of the transport's retry option set. */
  datatype RetryFlag = Early | Safe | Same

  /** Durations in milliseconds; no arithmetic is done on them. */
  type Millis = nat

  const SelectTimeout: Millis := 200
  const ExecLuaTimeout: Millis := 500
  const DefaultTimeout: Millis := 23000
  /** The (minimum, maximum) delay before a soft retry. */
  const SoftRetryDelay: (Millis, Millis) := (500, 1500)

  /** The soft-retry callback of a message: the transport's own, or the
      check this layer installs, which retries when the response's error
      code has the server's temporary-error bit `flag` set. */
  datatype SoftRetryRule = TransportRule | TemporaryErrcode(flag: u32)

  /** A snapshot of a message's options. */
  datatype Options = Options(
    from: ReadFrom,
    retry: set<RetryFlag>,
    maxTries: int,
    timeout: Millis,
    earlyTimeout: Millis,
    softRetryDelay: (Millis, Millis),
    softRetry: SoftRetryRule,
    shard: int)

  /** The caller's retry overrides; each is optional. */
  datatype RetryOverrides = RetryOverrides(early: Option<bool>, safe: Option<bool>, same: Option<bool>, maxTries: Option<int>)

  /** The caller's overrides; each is optional. */
  datatype OverridenOptions = OverridenOptions(
    from: Option<ReadFrom>,
    retry: Option<RetryOverrides>,
    timeout: Option<Millis>,
    earlyTimeout: Option<Millis>)

  /** The retry set after `toggle(m, on)`: unchanged without a value,
      otherwise `m` is in it exactly when `on` says so. */
  function Toggled(retry: set<RetryFlag>, m: RetryFlag, on: Option<bool>): (r: set<RetryFlag>)
    ensures m in r <==> (if on.Some? then on.value else m in retry)
    ensures forall x :: x != m ==> (x in r <==> x in retry)
  {
    match on
    case None => retry
    case Some(true) => retry + {m}
    case Some(false) => retry - {m}
  }

  /** An option: the override when present, the current value otherwise. */
  function Pick<T>(o: Option<T>, current: T): (r: T)
    ensures o.Some? ==> r == o.value
    ensures o.None? ==> r == current
  {
    if o.Some? then o.value else current
  }

  /** What `apply` makes of the options `x`. */
  function Overlay(o: OverridenOptions, x: Options): (r: Options)
    ensures r.shard == x.shard && r.softRetry == x.softRetry && r.softRetryDelay == x.softRetryDelay
  {
    var retried :=
      match o.retry
      case None => x
      case Some(rt) =>
        x.(retry := Toggled(Toggled(Toggled(x.retry, Early, rt.early), Safe, rt.safe), Same, rt.same),
           maxTries := Pick(rt.maxTries, x.maxTries));
    retried.(from := Pick(o.from, x.from),
             timeout := Pick(o.timeout, x.timeout),
             earlyTimeout := Pick(o.earlyTimeout, x.earlyTimeout))
  }

  /** Absent overrides leave their options as they were; present ones
      replace them. */
  lemma OverlayReplacesExactlyThePresent(o: OverridenOptions, x: Options)
    ensures Overlay(o, x).from == (if o.from.Some? then o.from.value else x.from)
    ensures Overlay(o, x).timeout == (if o.timeout.Some? then o.timeout.value else x.timeout)
    ensures Overlay(o, x).earlyTimeout == (if o.earlyTimeout.Some? then o.earlyTimeout.value else x.earlyTimeout)
    ensures o.retry.None? ==> Overlay(o, x).retry == x.retry && Overlay(o, x).maxTries == x.maxTries
    ensures o.retry.Some? ==>
              Overlay(o, x).maxTries == (if o.retry.value.maxTries.Some? then o.retry.value.maxTries.value else x.maxTries)
    ensures o.retry.Some? ==>
              (Early in Overlay(o, x).retry <==> if o.retry.value.early.Some? then o.retry.value.early.value else Early in x.retry) &&
              (Safe in Overlay(o, x).retry <==> if o.retry.value.safe.Some? then o.retry.value.safe.value else Safe in x.retry) &&
              (Same in Overlay(o, x).retry <==> if o.retry.value.same.Some? then o.retry.value.same.value else Same in x.retry)
  {
  }

  /** The overrides that carry nothing change nothing. */
  lemma OverlayNothing(x: Options)
    ensures Overlay(OverridenOptions(None, None, None, None), x) == x
  {
  }

  /** Applying the same overrides twice gives what applying them once gave. */
  lemma {:induction false} OverlayIdempotent(o: OverridenOptions, x: Options)
    ensures Overlay(o, Overlay(o, x)) == Overlay(o, x)
  {
    var once := Overlay(o, x);
    var twice := Overlay(o, once);
    if o.retry.Some? {
      var rt := o.retry.value;
      forall m | m in twice.retry
        ensures m in once.retry
      {
      }
      forall m | m in once.retry
        ensures m in twice.retry
      {
      }
      assert twice.retry == once.retry;
    }
  }

  /** The defaults `Message.init(cluster:type:data:)` gives a message of
      type `t`, over the transport's own defaults `base`. */
  function Defaults(t: MessageType, base: Options, temporaryFlag: u32): (r: Options)
    ensures r.from == (if t == Select then FromMasterThenReplica else FromMaster)
    ensures Safe in r.retry <==> t == Update
    ensures forall m :: m != Safe ==> (m in r.retry <==> m in base.retry)
    ensures r.timeout == (match t case Select => SelectTimeout case ExecLua => ExecLuaTimeout case _ => DefaultTimeout)
    ensures r.softRetryDelay == (if t == Select || t == ExecLua then base.softRetryDelay else SoftRetryDelay)
    ensures r.softRetry == TemporaryErrcode(temporaryFlag)
    ensures r.maxTries == base.maxTries && r.earlyTimeout == base.earlyTimeout && r.shard == base.shard
  {
    var routed := base.(from := if t == Select then FromMasterThenReplica else FromMaster,
                        retry := Toggled(base.retry, Safe, Some(t == Update)));
    var timed :=
      match t
      case Select => routed.(timeout := SelectTimeout)
      case ExecLua => routed.(timeout := ExecLuaTimeout)
      case _ => routed.(timeout := DefaultTimeout, softRetryDelay := SoftRetryDelay);
    timed.(softRetry := TemporaryErrcode(temporaryFlag))
  }

  /** The soft-retry check on a response: a failure of the transport, an
      empty payload or one too short for an error code is never retried;
      otherwise the response is retried when its error code has the
      temporary bit. */
  function SoftRetry(temporaryFlag: u32, response: Response): bool
  {
    match response
    case Failed(_) => false
    case Reply(payload, _) =>
      if |payload| == 0 then false
      else match DecodeU32(payload)
        case Err(_) => false
        case Ok((errcode, _)) => BitAnd(errcode, temporaryFlag) != 0
  }

  /** A reply is retried exactly when it starts with an error code that has
      the temporary bit; nothing else is. */
  lemma {:induction false} SoftRetryOfErrcode(temporaryFlag: u32, errcode: u32, rest: seq<byte>, from: Origin)
    ensures SoftRetry(temporaryFlag, Reply(U32Bytes(errcode) + rest, from)) <==> BitAnd(errcode, temporaryFlag) != 0
  {
    DecodeU32OfU32Bytes(errcode, rest);
  }

  lemma {:induction false} SoftRetryNeedsAnErrcode(temporaryFlag: u32, response: Response)
    requires SoftRetry(temporaryFlag, response)
    ensures response.Reply? && |response.payload| >= 4
    ensures DecodeU32(response.payload).Ok?
  {
  }

  /** A zero error code, the code of a success, is never retried. */
  lemma {:induction false} SuccessNotRetried(temporaryFlag: u32, rest: seq<byte>, from: Origin)
    ensures !SoftRetry(temporaryFlag, Reply(U32Bytes(0) + rest, from))
  {
    SoftRetryOfErrcode(temporaryFlag, 0, rest, from);
    assert BitAnd(0, temporaryFlag) == 0 by {
      assert (0 as bv32) & (temporaryFlag as bv32) == 0;
    }
  }

  /** The options object of a message, shared by whoever holds the message. */
  class MessageOptions {
    var from: ReadFrom
    var retry: set<RetryFlag>
    var maxTries: int
    var timeout: Millis
    var earlyTimeout: Millis
    var softRetryDelay: (Millis, Millis)
    var softRetry: SoftRetryRule
    var shard: int

    function Snapshot(): Options
      reads this
    {
      Options(from, retry, maxTries, timeout, earlyTimeout, softRetryDelay, softRetry, shard)
    }

    constructor (base: Options)
      ensures Snapshot() == base
    {
      from := base.from;
      retry := base.retry;
      maxTries := base.maxTries;
      timeout := base.timeout;
      earlyTimeout := base.earlyTimeout;
      softRetryDelay := base.softRetryDelay;
      softRetry := base.softRetry;
      shard := base.shard;
    }

    /** `retry.toggle(m, on)`. */
    method Toggle(m: RetryFlag, on: Option<bool>)
      modifies this
      ensures Snapshot() == old(Snapshot()).(retry := Toggled(old(retry), m, on))
    {
      if on.None? {
        return;
      }
      if on.value {
        retry := retry + {m};
      } else {
        retry := retry - {m};
      }
    }
  }

  /** `OverridenOptions.apply(to:)`: each present override replaces its
      option, in the order of the source. */
  method Apply(o: OverridenOptions, options: MessageOptions)
    modifies options
    ensures options.Snapshot() == Overlay(o, old(options.Snapshot()))
  {
    if o.from.Some? {
      options.from := o.from.value;
    }
    if o.retry.Some? {
      var rt := o.retry.value;
      options.Toggle(Early, rt.early);
      options.Toggle(Safe, rt.safe);
      options.Toggle(Same, rt.same);
      if rt.maxTries.Some? {
        options.maxTries := rt.maxTries.value;
      }
    }
    if o.timeout.Some? {
      options.timeout := o.timeout.value;
    }
    if o.earlyTimeout.Some? {
      options.earlyTimeout := o.earlyTimeout.value;
    }
  }

  /** The options after `options?.apply(to:)`: the overlay when there are
      overrides, the options unchanged otherwise; the shard is never
      overridden. */
  function OverlayIfAny(o: Option<OverridenOptions>, x: Options): (r: Options)
    ensures r.shard == x.shard
    ensures o.None? ==> r == x
  {
    if o.Some? then Overlay(o.value, x) else x
  }

  /** `options?.apply(to:)`: no overrides, no change. */
  method ApplyIfAny(o: Option<OverridenOptions>, options: MessageOptions)
    modifies options
    ensures o.None? ==> options.Snapshot() == old(options.Snapshot())
    ensures o.Some? ==> options.Snapshot() == Overlay(o.value, old(options.Snapshot()))
  {
    if o.Some? {
      Apply(o.value, options);
    }
  }

  /** A request message: its code, its payload, and its options. */
  class Message {
    const code: int
    const data: seq<byte>
    const options: MessageOptions

    /** `Message(cluster:type:data:)`: the transport's defaults `base`
        overlaid with this layer's per-type defaults. The temporary-error
        bit comes from the server's headers and is a parameter here. */
    constructor (t: MessageType, data: seq<byte>, base: Options, temporaryFlag: u32)
      ensures code == Code(t) && this.data == data
      ensures fresh(options) && options.Snapshot() == Defaults(t, base, temporaryFlag)
    {
      code := Code(t);
      this.data := data;
      var opts := new MessageOptions(base);
      opts.from := if t == Select then FromMasterThenReplica else FromMaster;
      opts.Toggle(Safe, Some(t == Update));
      match t {
        case Select =>
          opts.timeout := SelectTimeout;
        case ExecLua =>
          opts.timeout := ExecLuaTimeout;
        case _ =>
          opts.timeout := DefaultTimeout;
          opts.softRetryDelay := SoftRetryDelay;
      }
      opts.softRetry := TemporaryErrcode(temporaryFlag);
      options := opts;
    }
  }
}
