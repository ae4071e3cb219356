/**
 The alert gate and channel fan-out of `AlertManager`.

 The manager's only mutable state is the time of the last alert that passed
 the cooldown gate. The wall clock is a parameter (`now`, whole seconds), the
 provider set-up done by the constructor is a `Providers` value, and whatever
 the SMS and push providers answer on a given call is an oracle `Replies`
 value. Calls are taken one at a time: the model says nothing about two
 coroutines interleaving inside `send_alert`.
 */
module AlertManager {
  import opened PyNone

  /** Seconds that must separate two alerts let through by the gate. */
  const Cooldown: int := 60

  /** `last_alert_time`: unset until the first alert passes the gate. */
  datatype AlertState = AlertState(lastAlertTime: Nullable<int>)

  /** The state the constructor leaves behind. */
  const Initial: AlertState := AlertState(Null)

  /** What one gate check answers, and the state it leaves. */
  datatype GateStep = GateStep(passed: bool, next: AlertState)

  /** `_should_send_alert`: let an alert through, and restart the cooldown, when
      none has passed yet or at least `Cooldown` seconds have elapsed since the
      last one. The elapsed time may be negative if the clock went backwards;
      such a check is refused. */
  function ShouldSendAlert(s: AlertState, now: int): (r: GateStep)
    ensures s.lastAlertTime.Null? ==> r.passed
    ensures s.lastAlertTime.Value? ==> (r.passed <==> now - s.lastAlertTime.value >= Cooldown)
    ensures r.passed ==> r.next.lastAlertTime == Value(now)
    ensures !r.passed ==> r.next == s
  {
    match s.lastAlertTime
    case Null => GateStep(true, AlertState(Value(now)))
    case Value(last) =>
      if now - last >= Cooldown then GateStep(true, AlertState(Value(now)))
      else GateStep(false, s)
  }

  /** `reset_cooldown`: forget the last alert. */
  function ResetCooldown(s: AlertState): (r: AlertState)
    ensures r.lastAlertTime.Null?
  {
    AlertState(Null)
  }

  /** After a reset the gate opens whatever the clock reads. */
  lemma ResetReopensGate(s: AlertState, now: int)
    ensures ShouldSendAlert(ResetCooldown(s), now).passed
    ensures ShouldSendAlert(ResetCooldown(s), now).next.lastAlertTime == Value(now)
  {
  }

  // ---------------------------------------------------------------------------
  // Channels

  datatype Channel = Sms | Push | Email

  /** The position of a channel in the order `send_alert` tries them. */
  function Rank(c: Channel): nat {
    match c
    case Sms => 0
    case Push => 1
    case Email => 2
  }

  /** The per-request `AlertConfig`. */
  datatype AlertConfig = AlertConfig(
    phoneNumber: Nullable<string>,
    fcmToken: Nullable<string>,
    email: Nullable<string>,
    enableSms: bool,
    enablePush: bool,
    enableEmail: bool)

  /** Python truthiness of an optional string: present and non-empty. */
  predicate Given(field: Nullable<string>) {
    field.Value? && field.value != ""
  }

  /** A channel is tried only when its flag is on and its target is given. */
  predicate Enabled(config: AlertConfig, c: Channel) {
    match c
    case Sms => config.enableSms && Given(config.phoneNumber)
    case Push => config.enablePush && Given(config.fcmToken)
    case Email => config.enableEmail && Given(config.email)
  }

  /** What the constructor found: a Twilio client, an initialised Firebase app. */
  datatype Providers = Providers(twilioClient: bool, firebaseInitialized: bool)

  /** Oracle: whether the provider call of this request, if made, returns without raising. */
  datatype Replies = Replies(smsDelivered: bool, pushDelivered: bool)

  /** `_send_sms`: false without a Twilio client, else what Twilio answers. */
  function SendSms(p: Providers, rep: Replies): (ok: bool)
    ensures !p.twilioClient ==> !ok
    ensures p.twilioClient ==> (ok <==> rep.smsDelivered)
  {
    p.twilioClient && rep.smsDelivered
  }

  /** `_send_push_notification`: false unless Firebase is initialised, else what Firebase answers. */
  function SendPush(p: Providers, rep: Replies): (ok: bool)
    ensures !p.firebaseInitialized ==> !ok
    ensures p.firebaseInitialized ==> (ok <==> rep.pushDelivered)
  {
    p.firebaseInitialized && rep.pushDelivered
  }

  /** `_send_email`: a stub that reports success without contacting anything. */
  function SendEmail(): (ok: bool)
    ensures ok
  {
    true
  }

  /** The result of trying channel `c`. */
  function Delivers(c: Channel, p: Providers, rep: Replies): bool {
    match c
    case Sms => SendSms(p, rep)
    case Push => SendPush(p, rep)
    case Email => SendEmail()
  }

  /** The channels `send_alert` tries for `config`, in the order it tries them. */
  function Attempts(config: AlertConfig): (r: seq<Channel>)
    ensures forall c :: c in r <==> Enabled(config, c)
    ensures forall i, j :: 0 <= i < j < |r| ==> Rank(r[i]) < Rank(r[j])
  {
    (if Enabled(config, Sms) then [Sms] else [])
    + (if Enabled(config, Push) then [Push] else [])
    + (if Enabled(config, Email) then [Email] else [])
  }

  /** Tries `channels` in order, OR-ing each result into the running
      `alert_sent` flag. Every channel is tried even once one has succeeded. */
  function Dispatch(channels: seq<Channel>, p: Providers, rep: Replies, sentSoFar: bool): (sent: bool)
    ensures sent <==> sentSoFar || exists i :: 0 <= i < |channels| && Delivers(channels[i], p, rep)
    decreases |channels|
  {
    if channels == [] then sentSoFar
    else
      var rest := Dispatch(channels[1..], p, rep, sentSoFar || Delivers(channels[0], p, rep));
      assert forall i :: 1 <= i < |channels| ==> channels[i] == channels[1..][i - 1];
      rest
  }

  /** What one `send_alert` call reports, which channels it tried, and the state it leaves. */
  datatype AlertOutcome = AlertOutcome(sent: bool, attempted: seq<Channel>, next: AlertState)

  /** `send_alert`: consult the gate; if it refuses, report false and try
      nothing; otherwise try every enabled channel and report whether at least
      one of them succeeded. The gate has already restarted the cooldown by
      then, whether or not any channel succeeds. */
  function SendAlert(s: AlertState, now: int, config: AlertConfig, p: Providers, rep: Replies): (r: AlertOutcome)
    ensures r.next == ShouldSendAlert(s, now).next
    ensures !ShouldSendAlert(s, now).passed ==> !r.sent && r.attempted == [] && r.next == s
    ensures forall c :: c in r.attempted <==> ShouldSendAlert(s, now).passed && Enabled(config, c)
    ensures forall i, j :: 0 <= i < j < |r.attempted| ==> Rank(r.attempted[i]) < Rank(r.attempted[j])
    ensures r.sent <==> exists c :: c in r.attempted && Delivers(c, p, rep)
  {
    var gate := ShouldSendAlert(s, now);
    if !gate.passed then
      AlertOutcome(false, [], gate.next)
    else
      var channels := Attempts(config);
      AlertOutcome(Dispatch(channels, p, rep, false), channels, gate.next)
  }

  /** With the cooldown over and exactly one channel enabled, `send_alert`
      reports exactly what that channel reports. */
  lemma SingleChannelDecides(s: AlertState, now: int, config: AlertConfig, p: Providers, rep: Replies, c: Channel)
    requires ShouldSendAlert(s, now).passed
    requires Enabled(config, c)
    requires forall d :: d != c ==> !Enabled(config, d)
    ensures SendAlert(s, now, config, p, rep).sent <==> Delivers(c, p, rep)
    ensures SendAlert(s, now, config, p, rep).attempted == [c]
  {
    var r := SendAlert(s, now, config, p, rep);
    match c
    case Sms => assert !Enabled(config, Push) && !Enabled(config, Email);
    case Push => assert !Enabled(config, Sms) && !Enabled(config, Email);
    case Email => assert !Enabled(config, Sms) && !Enabled(config, Push);
  }

  /** The email stub makes every alert that passes the gate with email enabled succeed. */
  lemma EmailAlwaysSucceeds(s: AlertState, now: int, config: AlertConfig, p: Providers, rep: Replies)
    requires ShouldSendAlert(s, now).passed
    requires Enabled(config, Email)
    ensures SendAlert(s, now, config, p, rep).sent
  {
    assert Email in SendAlert(s, now, config, p, rep).attempted;
  }

  /** Without a Twilio client and without Firebase, SMS and push never
      succeed, so an alert is reported as sent exactly when it passes the gate
      with email enabled. */
  lemma OnlyEmailWithoutProviders(s: AlertState, now: int, config: AlertConfig, p: Providers, rep: Replies)
    requires !p.twilioClient && !p.firebaseInitialized
    ensures SendAlert(s, now, config, p, rep).sent <==> ShouldSendAlert(s, now).passed && Enabled(config, Email)
  {
    var r := SendAlert(s, now, config, p, rep);
    if ShouldSendAlert(s, now).passed && Enabled(config, Email) {
      assert Email in r.attempted;
    }
    if r.sent {
      var c :| c in r.attempted && Delivers(c, p, rep);
      assert c == Email;
    }
  }

  /** The gate consumes the cooldown before any channel is tried: when SMS is the
      only channel and no Twilio client is configured, the call reports false,
      yet every later call whose clock reads less than `now + Cooldown`, a clock
      that went back included, is refused without trying anything. */
  lemma FailedAlertStillStartsCooldown(
    s: AlertState, now: int, config: AlertConfig, p: Providers, rep: Replies,
    later: int, config': AlertConfig, rep': Replies)
    requires ShouldSendAlert(s, now).passed
    requires Enabled(config, Sms) && !Enabled(config, Push) && !Enabled(config, Email)
    requires !p.twilioClient
    requires later < now + Cooldown
    ensures !SendAlert(s, now, config, p, rep).sent
    ensures SendAlert(s, now, config, p, rep).next.lastAlertTime == Value(now)
    ensures !SendAlert(SendAlert(s, now, config, p, rep).next, later, config', p, rep').sent
    ensures SendAlert(SendAlert(s, now, config, p, rep).next, later, config', p, rep').attempted == []
  {
    SingleChannelDecides(s, now, config, p, rep, Sms);
  }

  // ---------------------------------------------------------------------------
  // Call sequences

  /** One call on a manager: `send_alert` at clock `now`, or `reset_cooldown`. */
  datatype Op = Alert(now: int, config: AlertConfig, replies: Replies) | Reset

  /** The state one call leaves: only the gate moves it, whatever the channels do. */
  function Next(s: AlertState, op: Op): AlertState {
    match op
    case Alert(now, _, _) => ShouldSendAlert(s, now).next
    case Reset => ResetCooldown(s)
  }

  /** One call's outcome; a reset reports false and tries nothing. */
  function Apply(s: AlertState, op: Op, p: Providers): (r: AlertOutcome)
    ensures r.next == Next(s, op)
    ensures r.sent ==> op.Alert? && ShouldSendAlert(s, op.now).passed
  {
    match op
    case Alert(now, config, rep) => SendAlert(s, now, config, p, rep)
    case Reset => AlertOutcome(false, [], ResetCooldown(s))
  }

  /** The state after running `ops` in order from `s`. */
  function After(s: AlertState, ops: seq<Op>): AlertState
    decreases |ops|
  {
    if ops == [] then s
    else Next(After(s, ops[..|ops| - 1]), ops[|ops| - 1])
  }

  /** Whether the gate let call `k` of `ops` through. */
  predicate GatePassedAt(s: AlertState, ops: seq<Op>, k: nat)
    requires k < |ops|
  {
    ops[k].Alert? && ShouldSendAlert(After(s, ops[..k]), ops[k].now).passed
  }

  /** Whether call `k` of `ops` reported an alert as sent. */
  predicate SentAt(s: AlertState, ops: seq<Op>, p: Providers, k: nat)
    requires k < |ops|
  {
    Apply(After(s, ops[..k]), ops[k], p).sent
  }

  /** Running one more call of `ops` takes one more step. */
  lemma AfterOneMore(s: AlertState, ops: seq<Op>, k: nat)
    requires k < |ops|
    ensures After(s, ops[..k + 1]) == Next(After(s, ops[..k]), ops[k])
  {
    assert ops[..k + 1][..k] == ops[..k];
  }

  /** Between a gate pass at call `i` and any later call `k` with no reset in
      between, the recorded last alert time never falls below call `i`'s clock. */
  lemma {:induction false} LastAlertNeverEarlier(s: AlertState, ops: seq<Op>, i: nat, k: nat)
    requires i < k <= |ops|
    requires GatePassedAt(s, ops, i)
    requires forall m :: i < m < k ==> ops[m].Alert?
    ensures After(s, ops[..k]).lastAlertTime.Value?
    ensures After(s, ops[..k]).lastAlertTime.value >= ops[i].now
    decreases k
  {
    AfterOneMore(s, ops, k - 1);
    if k > i + 1 {
      LastAlertNeverEarlier(s, ops, i, k - 1);
      assert ops[k - 1].Alert?;
    }
  }

  /** The cooldown invariant: two gate passes with no reset between them are at
      least `Cooldown` seconds apart on the clock. Nothing is assumed about the
      clock: each pass is measured from the previous pass. */
  lemma {:induction false} GatePassesSpaced(s: AlertState, ops: seq<Op>, i: nat, j: nat)
    requires i < j < |ops|
    requires GatePassedAt(s, ops, i) && GatePassedAt(s, ops, j)
    requires forall m :: i < m < j ==> ops[m].Alert?
    ensures ops[j].now - ops[i].now >= Cooldown
  {
    LastAlertNeverEarlier(s, ops, i, j);
  }

  /** Two `send_alert` calls that both report true, with no reset between
      them, are at least `Cooldown` seconds apart on the clock. */
  lemma {:induction false} SentAlertsSpaced(s: AlertState, ops: seq<Op>, p: Providers, i: nat, j: nat)
    requires i < j < |ops|
    requires SentAt(s, ops, p, i) && SentAt(s, ops, p, j)
    requires forall m :: i < m < j ==> ops[m].Alert?
    ensures ops[j].now - ops[i].now >= Cooldown
  {
    assert GatePassedAt(s, ops, i);
    assert GatePassedAt(s, ops, j);
    GatePassesSpaced(s, ops, i, j);
  }
}
