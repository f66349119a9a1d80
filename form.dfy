/** The contact form's controller: three text fields, a "submitted" flag
    that shows the success banner, and the reset timers that an accepted
    submission starts. The home page's contact section and the separate
    contact page run the same controller, so one class serves both.

    Time is an abstract millisecond clock `now`; the browser's timer queue
    is the sequence `pending` of due times. A timer is never stored by
    its creator, so nothing ever cancels one: every accepted submission
    adds a reset of its own, and any reset that falls due lowers the flag. */
module ContactForm {
  import opened Lists

  /** Milliseconds between an accepted submission and its reset. */
  const ResetDelay: nat := 3000

  /** The three inputs of the form, by their `name` attribute. */
  datatype Field = Name | Email | Message

  /** JavaScript truthiness of a string: only the empty string is falsy;
      nothing is trimmed, so a blank " " is truthy. */
  predicate Truthy(s: string) { s != "" }

  /** The due time of the reset started by each accepted submission. */
  function Dues(submits: seq<nat>): seq<nat>
  {
    if submits == [] then [] else [submits[0] + ResetDelay] + Dues(submits[1..])
  }

  /** The `j`-th accepted submission's reset is due `ResetDelay` after it. */
  lemma {:induction false} DuesAt(submits: seq<nat>, j: nat)
    requires j < |submits|
    ensures |Dues(submits)| == |submits| && Dues(submits)[j] == submits[j] + ResetDelay
  {
    if j > 0 {
      DuesAt(submits[1..], j - 1);
    } else if |submits| > 1 {
      DuesAt(submits[1..], 0);
    }
  }

  /** Whether a reset due at `d` is still to fire at time `now`. */
  function After(now: nat): nat -> bool
  {
    d => d > now
  }

  /** The resets among `dues` that have not fallen due by time `now`. */
  function Unfired(dues: seq<nat>, now: nat): seq<nat>
  {
    Filter(dues, After(now))
  }

  /** The banner flag that the submissions at times `submits` (in the
      order they were accepted) leave at time `now`: some submission was
      accepted, and no reset of ANY submission fell due after the latest
      one. A reset due at the very moment of a later submission fired
      before it, since timers run before the next event at that time. */
  predicate FlagUp(submits: seq<nat>, now: nat)
  {
    |submits| > 0 &&
    forall j :: 0 <= j < |submits| ==>
      !(submits[|submits| - 1] < submits[j] + ResetDelay <= now)
  }

  lemma {:induction false} DuesAppend(submits: seq<nat>, t: nat)
    ensures Dues(submits + [t]) == Dues(submits) + [t + ResetDelay]
  {
    if submits == [] {
      assert submits + [t] == [t];
    } else {
      assert (submits + [t])[1..] == submits[1..] + [t];
      DuesAppend(submits[1..], t);
    }
  }

  /** A submission accepted at `now` adds exactly one pending reset, due
      `ResetDelay` later, behind the ones already pending. */
  lemma UnfiredAfterSubmit(submits: seq<nat>, now: nat)
    ensures Unfired(Dues(submits + [now]), now) == Unfired(Dues(submits), now) + [now + ResetDelay]
  {
    var d: nat := now + ResetDelay;
    DuesAppend(submits, now);
    FilterAppend(Dues(submits), [d], After(now));
    FilterSingleton(d, After(now));
    assert After(now)(d);
    calc {
      Unfired(Dues(submits + [now]), now);
      Filter(Dues(submits) + [d], After(now));
      Filter(Dues(submits), After(now)) + Filter([d], After(now));
      Unfired(Dues(submits), now) + [d];
    }
  }

  /** Letting the clock run from `t` to `t2` fires the due resets among
      those still pending at `t`: no reset fires twice. */
  lemma UnfiredLater(dues: seq<nat>, t: nat, t2: nat)
    requires t <= t2
    ensures Unfired(Unfired(dues, t), t2) == Unfired(dues, t2)
  {
    FilterAbsorb(dues, After(t), After(t2));
  }

  /** Moving the clock from `t` to `t2` leaves the flag up exactly when it
      was up and no reset falls due in between. */
  lemma FlagUpLater(submits: seq<nat>, t: nat, t2: nat)
    requires forall i :: 0 <= i < |submits| ==> submits[i] <= t
    requires t <= t2
    ensures FlagUp(submits, t2) <==>
      FlagUp(submits, t) && forall j :: 0 <= j < |submits| ==> !(t < submits[j] + ResetDelay <= t2)
  {
  }

  /** A reset pending at `t` falls due by `t2` exactly when some accepted
      submission's reset is due after `t` and by `t2`. */
  lemma PendingFallsDue(submits: seq<nat>, t: nat, t2: nat)
    ensures (exists k :: 0 <= k < |Unfired(Dues(submits), t)| && Unfired(Dues(submits), t)[k] <= t2) <==>
            (exists j :: 0 <= j < |submits| && t < submits[j] + ResetDelay <= t2)
  {
    var dues := Dues(submits);
    var pend := Unfired(dues, t);
    FilterMembers(dues, After(t));
    if submits != [] {
      DuesAt(submits, 0);
    }
    if k :| 0 <= k < |pend| && pend[k] <= t2 {
      assert pend[k] in pend;
      var j :| 0 <= j < |dues| && dues[j] == pend[k];
      DuesAt(submits, j);
      assert t < submits[j] + ResetDelay <= t2;
    }
    if j :| 0 <= j < |submits| && t < submits[j] + ResetDelay <= t2 {
      DuesAt(submits, j);
      assert dues[j] in dues && After(t)(dues[j]);
      assert dues[j] in pend;
      var k :| 0 <= k < |pend| && pend[k] == dues[j];
    }
  }

  /** What the accepted submissions at times `submits` leave at time
      `now`: the timers still pending are exactly theirs that have not
      fallen due, and the flag is `FlagUp`. */
  ghost predicate Consistent(submits: seq<nat>, now: nat, pending: seq<nat>, flag: bool)
  {
    (forall i :: 0 <= i < |submits| ==> submits[i] <= now) &&
    pending == Unfired(Dues(submits), now) &&
    flag == FlagUp(submits, now)
  }

  /** An accepted submission at `now` keeps the state consistent: its
      reset joins the pending ones and the flag goes up. */
  lemma ConsistentSubmit(submits: seq<nat>, now: nat, pending: seq<nat>, flag: bool)
    requires Consistent(submits, now, pending, flag)
    ensures Consistent(submits + [now], now, pending + [now + ResetDelay], true)
  {
    UnfiredAfterSubmit(submits, now);
    assert FlagUp(submits + [now], now);
  }

  /** Moving the clock to `t2` keeps the state consistent when the resets
      due by `t2` leave the queue and, if there was any, lower the flag. */
  lemma ConsistentAdvance(submits: seq<nat>, now: nat, pending: seq<nat>, flag: bool, t2: nat)
    requires Consistent(submits, now, pending, flag)
    requires now <= t2
    ensures Consistent(submits, t2, Unfired(pending, t2),
                       flag && !exists k :: 0 <= k < |pending| && pending[k] <= t2)
  {
    UnfiredLater(Dues(submits), now, t2);
    FlagUpLater(submits, now, t2);
    PendingFallsDue(submits, now, t2);
  }

  /** One form instance. */
  class Form {
    var name: string
    var email: string
    var message: string
    var submitted: bool
    /** The abstract clock, in milliseconds since the form was created. */
    var now: nat
    /** Due times of the reset timers started and not yet fired. */
    var pending: seq<nat>
    /** The times of the accepted submissions, oldest first. */
    ghost var accepted: seq<nat>

    ghost predicate Valid()
      reads this`accepted, this`now, this`pending, this`submitted
    {
      Consistent(accepted, now, pending, submitted)
    }

    /** The submit guard: every field truthy. */
    predicate CanSubmit()
      reads this
    {
      Truthy(name) && Truthy(email) && Truthy(message)
    }

    /** A freshly shown form: empty fields, no banner, no timers. */
    constructor ()
      ensures Valid()
      ensures name == "" && email == "" && message == "" && !submitted
      ensures now == 0 && pending == [] && accepted == []
    {
      name, email, message := "", "", "";
      submitted := false;
      now := 0;
      pending := [];
      accepted := [];
    }

    /** The input handler: field `k` takes value `v`, nothing else moves. */
    method SetField(k: Field, v: string)
      requires Valid()
      modifies this`name, this`email, this`message
      ensures Valid()
      ensures name == (if k == Name then v else old(name))
      ensures email == (if k == Email then v else old(email))
      ensures message == (if k == Message then v else old(message))
      ensures submitted == old(submitted) && pending == old(pending) && now == old(now)
    {
      match k
      case Name => name := v;
      case Email => email := v;
      case Message => message := v;
    }

    /** The submit handler. Accepted exactly when all three fields are
        truthy; then the flag goes up, the fields are cleared and one more
        reset is scheduled `ResetDelay` from now. A refused submit changes
        nothing. */
    method Submit() returns (ok: bool)
      requires Valid()
      modifies this
      ensures Valid()
      ensures ok <==> old(CanSubmit())
      ensures ok ==> submitted && name == "" && email == "" && message == ""
      ensures ok ==> pending == old(pending) + [now + ResetDelay] && accepted == old(accepted) + [now]
      ensures ok ==> !CanSubmit()
      ensures !ok ==> name == old(name) && email == old(email) && message == old(message)
      ensures !ok ==> submitted == old(submitted) && pending == old(pending) && accepted == old(accepted)
      ensures now == old(now)
    {
      ok := CanSubmit();
      if ok {
        ConsistentSubmit(accepted, now, pending, submitted);
        submitted := true;
        pending := pending + [now + ResetDelay];
        accepted := accepted + [now];
        name, email, message := "", "", "";
      }
    }

    /** The clock moves on by `dt`; every reset that falls due by the new
        time fires. A firing reset only lowers the flag; it leaves the
        fields alone. Returns how many resets fired. */
    method Advance(dt: nat) returns (fired: nat)
      requires Valid()
      modifies this`now, this`submitted, this`pending
      ensures Valid()
      ensures now == old(now) + dt
      ensures pending == Unfired(old(pending), now)
      ensures fired == |old(pending)| - |pending|
      ensures fired > 0 <==> exists i :: 0 <= i < |old(pending)| && old(pending)[i] <= now
      ensures fired == 0 ==> pending == old(pending)
      ensures submitted == (old(submitted) && fired == 0)
      ensures name == old(name) && email == old(email) && message == old(message)
    {
      ConsistentAdvance(accepted, now, pending, submitted, now + dt);
      now := now + dt;
      var kept := Unfired(pending, now);
      FilterDrops(pending, After(now));
      if forall i :: 0 <= i < |pending| ==> After(now)(pending[i]) {
        FilterAll(pending, After(now));
      }
      fired := |pending| - |kept|;
      if fired > 0 {
        submitted := false;
      }
      pending := kept;
    }
  }

  /** Fills all three fields of `f` with the given values. */
  method Fill(f: Form, n: string, e: string, m: string)
    requires f.Valid()
    modifies f`name, f`email, f`message
    ensures f.Valid()
    ensures f.name == n && f.email == e && f.message == m
    ensures f.submitted == old(f.submitted) && f.pending == old(f.pending) && f.now == old(f.now)
  {
    f.SetField(Name, n);
    f.SetField(Email, e);
    f.SetField(Message, m);
  }

  /** A submission with one empty field is refused and leaves the form
      as it was; blank-but-not-empty fields are accepted. */
  method TruthinessScenario() returns (emptyName: bool, blanks: bool, flagAfterRefusal: bool)
    ensures !emptyName && blanks && !flagAfterRefusal
  {
    var f := new Form();
    Fill(f, "", "a@b.com", "hi");
    emptyName := f.Submit();
    flagAfterRefusal := f.submitted;
    Fill(f, " ", " ", " ");
    blanks := f.Submit();
  }

  /** Right after an accepted submission the cleared form refuses a
      second one, until all three fields are filled in again. */
  method ResubmitScenario() returns (first: bool, second: bool, partly: bool, refilled: bool)
    ensures first && !second && !partly && refilled
  {
    var f := new Form();
    Fill(f, "Jane", "jane@x.com", "Pitch");
    first := f.Submit();
    second := f.Submit();
    f.SetField(Name, "Jane");
    f.SetField(Email, "jane@x.com");
    partly := f.Submit();
    f.SetField(Message, "Pitch");
    refilled := f.Submit();
  }

  /** One accepted submission: the banner shows until its reset falls
      due `ResetDelay` later, and the fields stay cleared. */
  method SingleResetScenario() returns (at2999: bool, at3000: bool, cleared: bool)
    ensures at2999 && !at3000 && cleared
  {
    var f := new Form();
    Fill(f, "Jane", "jane@x.com", "Pitch");
    var ok := f.Submit();
    var fired := f.Advance(2999);
    at2999 := f.submitted;
    fired := f.Advance(1);
    at3000 := f.submitted;
    cleared := f.name == "" && f.email == "" && f.message == "";
  }

  /** Of the resets due at 3000 and 4000, only the second is still
      pending at 3000. */
  lemma FirstOfTwoFires()
    ensures Unfired([3000, 4000], 3000) == [4000]
  {
  }

  /** A form with submissions accepted at 0 and 1000. */
  method TwoSubmits() returns (f: Form)
    ensures fresh(f) && f.Valid()
    ensures f.now == 1000 && f.submitted && f.pending == [3000, 4000]
  {
    f := new Form();
    Fill(f, "Jane", "jane@x.com", "Pitch");
    var ok := f.Submit();
    var fired := f.Advance(1000);
    Fill(f, "Jane", "jane@x.com", "Pitch again");
    ok := f.Submit();
  }

  /** Two accepted submissions at 0 and 1000: the first one's timer is
      not cancelled, so it lowers the banner at 3000 although the second
      submission is only 2000 ms old; the second timer fires at 4000. */
  method OverlapScenario() returns (at2999: bool, at3000: bool, pendingAt3000: nat, at4000: bool)
    ensures at2999 && !at3000 && pendingAt3000 == 1 && !at4000
  {
    var f := TwoSubmits();
    var fired := f.Advance(1999);
    at2999 := f.submitted;
    fired := f.Advance(1);
    at3000 := f.submitted;
    FirstOfTwoFires();
    pendingAt3000 := |f.pending|;
    fired := f.Advance(1000);
    at4000 := f.submitted;
  }
}
