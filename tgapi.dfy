/** The part of a Telegram Bot API exchange both Telegram packages handle the same way: the
    response fields they read, the rate-limit answer (error code 429, whose description
    ends in the number of seconds to wait), and the resend that follows it. */
module TgApi {
  import opened Wrappers
  import opened Strs

  /** The fields of a response the senders read. */
  datatype Message = Message(ok: bool, errorCode: int, description: string)

  /** What one POST brought back: no response, a body that could not be read, a body
      that is not a JSON message, or a decoded message. */
  datatype Response = PostFailed | Unreadable | Undecodable | Decoded(msg: Message)

  datatype Error =
    | RequestFailed
    | ReadFailed
    | DecodeFailed
    | BadWait(text: string)
    | Refused(code: int, description: string)

  /** One attempt's verdict: delivered, to be sent again after `wait` seconds, or failed. */
  datatype Outcome = Sent(msg: Message) | Resend(wait: int) | Failed(err: Error)

  const TooManyRequests := 429

  /** The text after the last space of a rate-limit description. */
  function WaitText(description: string): (t: string)
    ensures HasSuffix(description, t)
    ensures ' ' !in t
  {
    var k := LastIndex(description, ' ');
    var t := description[k + 1..];
    assert |description| - |t| == k + 1;
    assert ' ' !in t by {
      forall j | 0 <= j < |t|
        ensures t[j] != ' '
      {
        assert t[j] == description[k + 1 + j];
      }
    }
    t
  }

  /** The number of seconds a rate-limit description asks for: the text after its last
      space read by `strconv.Atoi`. */
  function RetryAfter(description: string): (r: Option<int>)
    ensures r.Some? ==> Int64Min <= r.value <= Int64Max
  {
    Atoi(WaitText(description))
  }

  lemma FormatIntHasNoSpace(n: int)
    ensures ' ' !in FormatInt(n)
  {
    var s := FormatInt(n);
    if n < 0 {
      assert s == "-" + Itoa(-n);
      assert forall j :: 1 <= j < |s| ==> s[j] == Itoa(-n)[j - 1];
    }
  }

  /** A description ending in " <n>" asks for exactly n seconds, whatever comes before. */
  lemma RetryAfterReadsBack(prefix: string, n: int)
    requires Int64Min <= n <= Int64Max
    ensures RetryAfter(prefix + " " + FormatInt(n)) == Some(n)
  {
    var f := FormatInt(n);
    var d := prefix + " " + f;
    FormatIntHasNoSpace(n);
    var k := LastIndex(d, ' ');
    assert d[|prefix|] == ' ';
    assert k == |prefix|;
    assert d[k + 1..] == f;
    AtoiFormatInt(n);
  }

  /** What the package does once the attempt that settled the exchange is known. */
  function Settled(o: Outcome): (r: Result<Message, Error>)
    requires !o.Resend?
    ensures r.Ok? <==> o.Sent?
  {
    match o
    case Sent(m) => Ok(m)
    case Failed(e) => Err(e)
  }

  /** The seconds slept across the resends among `outcomes`. */
  function Slept(outcomes: seq<Outcome>): int
  {
    if outcomes == [] then 0
    else (if outcomes[0].Resend? then outcomes[0].wait else 0) + Slept(outcomes[1..])
  }

  /** The result of a send, its number of attempts and the seconds slept. The result is
      None when the given attempts ran out while the server still asked for a resend. */
  datatype Delivery = Delivery(result: Option<Result<Message, Error>>, attempts: nat, slept: int)

  /** A send that resends itself after each rate-limit answer: the k-th attempt's verdict
      is outcomes[k]. */
  function Deliver(outcomes: seq<Outcome>): (d: Delivery)
    ensures 0 < |outcomes| ==> 1 <= d.attempts
    ensures d.attempts <= |outcomes|
    ensures forall k :: 0 <= k < d.attempts - 1 ==> outcomes[k].Resend?
    ensures d.result.Some? ==>
      && 1 <= d.attempts
      && !outcomes[d.attempts - 1].Resend?
      && d.result.value == Settled(outcomes[d.attempts - 1])
    ensures d.result.None? ==>
      d.attempts == |outcomes| && forall k :: 0 <= k < |outcomes| ==> outcomes[k].Resend?
    ensures d.slept == Slept(outcomes[..d.attempts])
  {
    if outcomes == [] then Delivery(None, 0, 0)
    else
      match outcomes[0]
      case Resend(w) =>
        var rest := Deliver(outcomes[1..]);
        assert outcomes[..rest.attempts + 1][1..] == outcomes[1..][..rest.attempts];
        Delivery(rest.result, rest.attempts + 1, rest.slept + w)
      case _ =>
        assert outcomes[..1][1..] == [];
        Delivery(Some(Settled(outcomes[0])), 1, 0)
  }

  /** The first attempt the server does not answer with a rate limit settles the send. */
  lemma DeliverFirstSettled(outcomes: seq<Outcome>, k: nat)
    requires k < |outcomes| && !outcomes[k].Resend?
    requires forall j :: 0 <= j < k ==> outcomes[j].Resend?
    ensures Deliver(outcomes).result == Some(Settled(outcomes[k]))
    ensures Deliver(outcomes).attempts == k + 1
  {
  }
}
