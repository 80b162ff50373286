/**
  The keys under which the middlewares share one Redis: HTTP and gRPC rate limits and the
  idempotency gate.
 */
module Keys {
  import opened Prelude
  import opened Redis

  datatype Identity = User(id: string) | Ip(address: string)

  /** Who asks, and through which middleware. */
  datatype Key = Http(identity: Identity) | Grpc(identity: Identity) | Gate(token: string)

  function IdentityText(who: Identity): string {
    match who
    case User(id) => "user:" + id
    case Ip(address) => "ip:" + address
  }

  function KeyText(k: Key): string {
    match k
    case Http(who) => "rl:" + IdentityText(who)
    case Grpc(who) => "rl:grpc:" + IdentityText(who)
    case Gate(token) => "idempotency:" + token
  }

  /** The gRPC identity: the authenticated principal, else the peer, else a fixed name. */
  function GrpcIdentity(principal: Option<string>, peer: Option<string>): Identity {
    if principal.Some? then User(principal.value)
    else if peer.Some? then Ip(peer.value)
    else Ip("unknown")
  }

  lemma {:induction false} SameTail(prefix: string, s: string, t: string)
    requires prefix + s == prefix + t
    ensures s == t
  {
    assert s == (prefix + s)[|prefix|..];
    assert t == (prefix + t)[|prefix|..];
  }

  lemma {:induction false} IdentityTextInjective(a: Identity, b: Identity)
    requires IdentityText(a) == IdentityText(b)
    ensures a == b
  {
    assert IdentityText(a)[0] == if a.User? then 'u' else 'i';
    assert IdentityText(b)[0] == if b.User? then 'u' else 'i';
    if a.User? {
      SameTail("user:", a.id, b.id);
    } else {
      SameTail("ip:", a.address, b.address);
    }
  }

  /** Two keys of any of the five kinds are the same text only if kind and identity are the same. */
  lemma {:induction false} KeysAreDistinct(a: Key, b: Key)
    requires KeyText(a) == KeyText(b)
    ensures a == b
  {
    FirstLetters(a);
    FirstLetters(b);
    match a {
      case Http(who) => SameTail("rl:", IdentityText(who), IdentityText(b.identity));
                        IdentityTextInjective(who, b.identity);
      case Grpc(who) => SameTail("rl:grpc:", IdentityText(who), IdentityText(b.identity));
                        IdentityTextInjective(who, b.identity);
      case Gate(token) => SameTail("idempotency:", token, b.token);
    }
  }

  lemma {:induction false} FirstLetters(k: Key)
    ensures |KeyText(k)| > 3
    ensures KeyText(k)[0] == if k.Gate? then 'i' else 'r'
    ensures k.Http? ==> KeyText(k)[3] != 'g'
    ensures k.Grpc? ==> KeyText(k)[3] == 'g'
  {
    if k.Http? {
      assert KeyText(k)[3] == IdentityText(k.identity)[0];
    }
  }

  /** Limiters use their own keys and the gate its own. */
  predicate Issued(call: Call, k: Key) {
    call.key == KeyText(k) && (call.command.SetNx? <==> k.Gate?)
  }

  /** Under a limiter key there is never a lock. */
  predicate TimesOnly(s: Store) {
    forall key :: key in s && key != "" && key[0] == 'r' ==> s[key].value.Tat?
  }

  /** A command the server refuses whenever it would write. */
  predicate Refused(command: Command) {
    match command
    case Gcra(limit) => limit.period <= 0.0
    case SetNx(expiry) => !Acceptable(expiry)
  }

  /** Whether a call's failure is its own fault: the request was lost, or the command is one the server refuses. */
  predicate ErrorsRightly(call: Call, reply: Reply) {
    && (reply == Error ==> call.fault.LostRequest? || Refused(call.command))
    && (call.fault.LostRequest? || (call.command.SetNx? && Refused(call.command)) ==> reply == Error)
  }

  lemma {:induction false} StepKeepsTimes(ret: Retention, s: Store, call: Call, k: Key)
    requires Issued(call, k) && TimesOnly(s)
    ensures TimesOnly(Step(ret, s, call).0)
    ensures ErrorsRightly(call, Step(ret, s, call).1)
  {
    FirstLetters(k);
  }

  /** No stored lock is ever read as an arrival time: no call fails but for its own reasons. */
  lemma {:induction false} ScriptNeverMeetsALock(ret: Retention, s: Store, calls: seq<Call>, keys: seq<Key>)
    requires |calls| == |keys| && forall i :: 0 <= i < |calls| ==> Issued(calls[i], keys[i])
    requires TimesOnly(s)
    ensures forall i :: 0 <= i < |calls| ==> ErrorsRightly(calls[i], Run(ret, s, calls)[i])
    decreases |calls|
  {
    if calls == [] {
    } else {
      StepKeepsTimes(ret, s, calls[0], keys[0]);
      ScriptNeverMeetsALock(ret, Step(ret, s, calls[0]).0, calls[1..], keys[1..]);
    }
  }
}
