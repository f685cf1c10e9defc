/** What a refused client is told to wait. */
module PasswordResetWaits {
  import opened Basics
  import opened PasswordReset

  /** The announced wait is right to the second: refused until its last second, admitted at its end. */
  lemma RequestWaitIsExact(row: Challenge, now: int, seconds: int, t: int)
    requires RequestRetryAfter(row, now) == Some(seconds)
    ensures seconds >= 1
    ensures now <= t <= now + 1000 * (seconds - 1) ==> RequestRetryAfter(row, t).Some?
    ensures t >= now + 1000 * seconds ==> RequestRetryAfter(row, t).None?
  {
    var (cooldown, requests) := (CooldownWait(row, now), RequestsWait(row, now));
    if cooldown.Some? {
      EndsInSeconds(row.lastRequestedAt + RESEND_COOLDOWN_MS, now, cooldown.value);
    }
    if requests.Some? {
      EndsInSeconds(row.window.startedAt + WINDOW_MS, now, requests.value);
    }
  }

  lemma VerifyWaitIsExact(row: Challenge, now: int, seconds: int, t: int)
    requires VerifyRetryAfter(row, now) == Some(seconds)
    ensures seconds >= 1
    ensures now <= t <= now + 1000 * (seconds - 1) ==> VerifyRetryAfter(row, t).Some?
    ensures t >= now + 1000 * seconds ==> VerifyRetryAfter(row, t).None?
  {
    EndsInSeconds(row.window.startedAt + WINDOW_MS, now, seconds);
  }

  lemma EndsInSeconds(end: int, now: int, seconds: int)
    requires now < end && seconds == SecondsUntil(end, now)
    ensures seconds >= 1 && now + 1000 * (seconds - 1) < end <= now + 1000 * seconds
  {
  }
}
