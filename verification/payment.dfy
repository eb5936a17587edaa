/**
 The mock payment dialog: a length-only check of the card details, then a
 timer that raises a progress gauge by 5 per tick and marks the payment
 successful once the gauge reaches 100. Each timer tick and each click on
 the Pay button is an input event; the 100 ms scheduling is not modelled.
 */
module Payment {

  const CardMinLength: int := 16
  const CvvMinLength: int := 3
  /** Gauge increase per timer tick. */
  const Step: int := 5
  /** Gauge value at which the payment is complete (the gauge's range). */
  const Complete: int := 100
  /** The only gauge value that switches the button label to "Authorizing...". */
  const AuthorizingAt: int := 50
  /** Number of ticks from 0 to `Complete`. */
  const TicksToComplete: nat := 20

  /** The text on the Pay button. */
  datatype PayLabel = PayAmount | Processing | Authorizing | PaymentSuccessful

  /**
   The dialog's state: `amount` is the total due in cents, `successful` is
   `payment_successful`, `payEnabled` whether the Pay button takes clicks,
   `timerRunning` whether ticks are being delivered, `gauge` is
   `gauge_value`, and `closeScheduled` records the `EndModal(wx.ID_OK)`
   queued after success.
   */
  datatype PaymentDialog = PaymentDialog(
    amount: int,
    successful: bool,
    payEnabled: bool,
    timerRunning: bool,
    gauge: int,
    buttonLabel: PayLabel,
    closeScheduled: bool)

  /** A Pay click with the three text fields as typed, or one timer tick. */
  datatype PayEvent = PayClick(card: string, expiry: string, cvv: string) | TimerTick

  /** A freshly opened dialog: Pay enabled, no timer, not successful. */
  function NewDialog(amount: int): (d: PaymentDialog)
    ensures Inv(d) && d.payEnabled && !d.successful && !d.timerRunning && d.amount == amount
  {
    PaymentDialog(amount, false, true, false, 0, PayAmount, false)
  }

  /**
   The validation in `on_pay`: only the lengths of the card number and CVV
   are looked at; the expiry field is not an input at all.
   */
  function DetailsAccepted(card: string, cvv: string): (ok: bool)
    ensures ok <==> |card| >= CardMinLength && |cvv| >= CvvMinLength
  {
    !(|card| < CardMinLength || |cvv| < CvvMinLength)
  }

  /**
   A click on Pay. A disabled button delivers no click. Rejected details
   leave the dialog as it was (only a message box appears); accepted ones
   disable the button and start the timer from gauge 0.
   */
  function OnPay(d: PaymentDialog, card: string, expiry: string, cvv: string): (r: PaymentDialog)
    ensures !d.payEnabled || |card| < CardMinLength || |cvv| < CvvMinLength ==> r == d
    ensures d.payEnabled && |card| >= CardMinLength && |cvv| >= CvvMinLength ==>
      r.timerRunning && r.gauge == 0 && !r.payEnabled && r.buttonLabel == Processing
    ensures r.amount == d.amount && r.successful == d.successful && r.closeScheduled == d.closeScheduled
  {
    if !d.payEnabled || !DetailsAccepted(card, cvv) then d
    else d.(payEnabled := false, buttonLabel := Processing, timerRunning := true, gauge := 0)
  }

  /**
   One timer tick. A stopped timer delivers none. Otherwise the gauge rises
   by 5; at 100 or more the timer stops, the payment is successful and the
   dialog schedules its own close with OK; at exactly 50 the label becomes
   "Authorizing...".
   */
  function OnTimer(d: PaymentDialog): (r: PaymentDialog)
    ensures !d.timerRunning ==> r == d
    ensures d.timerRunning ==> r.gauge == d.gauge + Step
    ensures d.timerRunning ==> (r.successful <==> d.successful || r.gauge >= Complete)
    ensures d.timerRunning ==> (r.timerRunning <==> r.gauge < Complete)
    ensures r.buttonLabel == Authorizing && d.buttonLabel != Authorizing ==> r.gauge == AuthorizingAt
    ensures r.amount == d.amount && r.payEnabled == d.payEnabled
  {
    if !d.timerRunning then d
    else
      var g := d.gauge + Step;
      if g >= Complete then
        d.(gauge := g, timerRunning := false, successful := true,
           buttonLabel := PaymentSuccessful, closeScheduled := true)
      else if g == AuthorizingAt then
        d.(gauge := g, buttonLabel := Authorizing)
      else
        d.(gauge := g)
  }

  /**
   The states a dialog can reach: the gauge is a multiple of 5 in 0..100;
   while the timer runs the button is disabled, the payment not yet
   successful and the label tracks the gauge; success means the gauge is full,
   the timer stopped and the close scheduled.
   */
  ghost predicate Inv(d: PaymentDialog) {
    && 0 <= d.gauge <= Complete
    && d.gauge % Step == 0
    && (d.successful <==> d.closeScheduled)
    && (d.successful ==> d.gauge == Complete && !d.timerRunning && !d.payEnabled && d.buttonLabel == PaymentSuccessful)
    && (d.payEnabled ==> !d.timerRunning && !d.successful && d.buttonLabel == PayAmount)
    && (d.timerRunning ==>
          && !d.payEnabled && !d.successful && d.gauge < Complete
          && d.buttonLabel == (if d.gauge >= AuthorizingAt then Authorizing else Processing))
  }

  /** One event, dispatched to its handler; every handler keeps the invariant. */
  function Handle(d: PaymentDialog, e: PayEvent): (r: PaymentDialog)
    requires Inv(d)
    ensures Inv(r)
    ensures r.amount == d.amount
    ensures d.successful ==> r.successful
  {
    match e
    case PayClick(card, expiry, cvv) => OnPay(d, card, expiry, cvv)
    case TimerTick => OnTimer(d)
  }

  /**
   The dialog after a sequence of events, handled in order. Once the payment
   is successful it stays so.
   */
  function Run(d: PaymentDialog, events: seq<PayEvent>): (r: PaymentDialog)
    requires Inv(d)
    ensures Inv(r)
    ensures r.amount == d.amount
    ensures d.successful ==> r.successful
    decreases |events|
  {
    if events == [] then d else Run(Handle(d, events[0]), events[1..])
  }

  /** `n` timer ticks in a row. */
  function Ticks(d: PaymentDialog, n: nat): PaymentDialog
    decreases n
  {
    if n == 0 then d else OnTimer(Ticks(d, n - 1))
  }

  /** The event list of `n` ticks. */
  function TickEvents(n: nat): (es: seq<PayEvent>)
    ensures |es| == n && forall i :: 0 <= i < n ==> es[i] == TimerTick
  {
    seq(n, _ => TimerTick)
  }

  /** Gauge value after `n` ticks of a started timer. */
  function ProgressAfter(n: nat): int {
    if n <= TicksToComplete then Step * n else Complete
  }

  /**
   After the timer starts, `n` ticks bring the gauge to 5n (capped at 100);
   the payment is successful exactly from the 20th tick on; the timer runs
   until then; the label reads "Processing..." below 50, "Authorizing..."
   from 50 and "Payment Successful!" at 100.
   */
  lemma {:induction false} TicksFromStart(d: PaymentDialog, n: nat)
    requires Inv(d) && d.timerRunning && d.gauge == 0
    ensures Ticks(d, n).gauge == ProgressAfter(n)
    ensures Ticks(d, n).successful <==> n >= TicksToComplete
    ensures Ticks(d, n).timerRunning <==> n < TicksToComplete
    ensures Ticks(d, n).buttonLabel ==
      (if n >= TicksToComplete then PaymentSuccessful
       else if n >= 10 then Authorizing
       else Processing)
    ensures Ticks(d, n).amount == d.amount
  {
    if n > 0 {
      TicksFromStart(d, n - 1);
    }
  }

  /** A tick before `n` ticks is the same as a tick after them. */
  lemma {:induction false} TicksShift(d: PaymentDialog, n: nat)
    ensures Ticks(OnTimer(d), n) == Ticks(d, n + 1)
    decreases n
  {
    if n > 0 {
      TicksShift(d, n - 1);
    }
  }

  /** Feeding `n` tick events through `Run` is `n` ticks. */
  lemma {:induction false} RunTicks(d: PaymentDialog, n: nat)
    requires Inv(d)
    ensures Run(d, TickEvents(n)) == Ticks(d, n)
    decreases n
  {
    if n > 0 {
      assert TickEvents(n)[0] == TimerTick && TickEvents(n)[1..] == TickEvents(n - 1);
      RunTicks(OnTimer(d), n - 1);
      TicksShift(d, n - 1);
    }
  }

  /** A stopped timer delivers nothing, however many ticks are waited for. */
  lemma {:induction false} TicksWhenStopped(d: PaymentDialog, n: nat)
    requires !d.timerRunning
    ensures Ticks(d, n) == d
  {
    if n > 0 {
      TicksWhenStopped(d, n - 1);
    }
  }

  /**
   Validation looks at nothing but two lengths: card numbers and CVVs of the
   same lengths are treated alike whatever their characters, and the expiry
   text never matters.
   */
  lemma ValidationIsLengthOnly(d: PaymentDialog, card: string, card': string, expiry: string, expiry': string,
                               cvv: string, cvv': string)
    requires |card| == |card'| && |cvv| == |cvv'|
    ensures OnPay(d, card, expiry, cvv) == OnPay(d, card', expiry', cvv')
  {
  }

  /**
   Until a click on Pay with accepted details arrives, the dialog stays exactly
   as it was opened: rejected clicks and ticks change nothing, so no timer is
   started and the payment cannot succeed.
   */
  lemma {:induction false} NoAcceptedPayNoProgress(amount: int, events: seq<PayEvent>)
    requires forall i :: 0 <= i < |events| && events[i].PayClick? ==>
      !DetailsAccepted(events[i].card, events[i].cvv)
    ensures Run(NewDialog(amount), events) == NewDialog(amount)
    ensures !Run(NewDialog(amount), events).successful
    decreases |events|
  {
    if events != [] {
      assert Handle(NewDialog(amount), events[0]) == NewDialog(amount);
      NoAcceptedPayNoProgress(amount, events[1..]);
    }
  }

  /**
   One click on Pay followed by `n` ticks makes the payment successful if and
   only if the card number has at least 16 characters, the CVV at least 3, and
   at least 20 ticks were delivered.
   */
  lemma PayThenTicks(amount: int, card: string, expiry: string, cvv: string, n: nat)
    ensures Run(NewDialog(amount), [PayClick(card, expiry, cvv)] + TickEvents(n)).successful
        <==> |card| >= CardMinLength && |cvv| >= CvvMinLength && n >= TicksToComplete
  {
    var events := [PayClick(card, expiry, cvv)] + TickEvents(n);
    var d := Handle(NewDialog(amount), events[0]);
    assert events[1..] == TickEvents(n);
    assert Run(NewDialog(amount), events) == Run(d, TickEvents(n));
    RunTicks(d, n);
    if DetailsAccepted(card, cvv) {
      TicksFromStart(d, n);
    } else {
      TicksWhenStopped(d, n);
    }
  }
}
