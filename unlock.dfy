/**
 * The passcode dialog of the "encrypted file" window. A press of the unlock button is
 * judged at time `now` (milliseconds) against the time until which the dialog is locked;
 * a wrong code locks it for two seconds. The clock is an input.
 */
module Unlock {
  import opened Text

  const COOLDOWN_MS := 2000

  /** The passcodes of the revisions. */
  const CODE_BUNDLE := "mono_Sk111270"
  const CODE_ADMIN := "admin"

  datatype Outcome =
    | Ignored       // still locked: nothing happens
    | AskForCode    // "Bitte Code eingeben."
    | FileNotFound  // "Datei nicht gefunden." (script_music.js only)
    | Wrong         // locked for COOLDOWN_MS
    | Granted       // the file opens and the dialog closes

  datatype Step = Step(outcome: Outcome, lockUntil: int)

  /** One press in script_bundle_fixed.js, script_fixed.js and test/script_music_v3.js:
      the lock is checked first, then the trimmed code. */
  function Attempt(now: int, lockUntil: int, input: string, secret: string): (r: Step)
    ensures now < lockUntil ==> r == Step(Ignored, lockUntil)
    ensures r.outcome == Granted <==> lockUntil <= now && Trim(input) != "" && Trim(input) == secret
    ensures r.outcome == Wrong <==> lockUntil <= now && Trim(input) != "" && Trim(input) != secret
    ensures r.outcome == AskForCode <==> lockUntil <= now && AllSpace(input)
    ensures r.outcome == Wrong ==> r.lockUntil == now + COOLDOWN_MS
    ensures r.outcome != Wrong ==> r.lockUntil == lockUntil
    ensures r.outcome != FileNotFound
  {
    if now < lockUntil then Step(Ignored, lockUntil)
    else
      var code := Trim(input);
      if code == "" then Step(AskForCode, lockUntil)
      else if code != secret then Step(Wrong, now + COOLDOWN_MS)
      else Step(Granted, lockUntil)
  }

  /** One press in script_music.js: an unknown file is reported before the code is looked
      at, and nothing about it changes the lock. */
  function AttemptWithFile(now: int, lockUntil: int, input: string, fileKnown: bool, secret: string): (r: Step)
    ensures now < lockUntil ==> r == Step(Ignored, lockUntil)
    ensures r.outcome == FileNotFound <==> lockUntil <= now && !fileKnown
    ensures fileKnown ==> r == Attempt(now, lockUntil, input, secret)
  {
    if now < lockUntil then Step(Ignored, lockUntil)
    else if !fileKnown then Step(FileNotFound, lockUntil)
    else Attempt(now, lockUntil, input, secret)
  }

  /** Leading and trailing blanks around the right code do not matter. */
  lemma GrantedIgnoresPadding(now: int, lockUntil: int, pre: string, post: string, secret: string)
    requires lockUntil <= now && AllSpace(pre) && AllSpace(post)
    requires secret != "" && !IsJsSpace(secret[0]) && !IsJsSpace(secret[|secret| - 1])
    ensures Attempt(now, lockUntil, pre + secret + post, secret).outcome == Granted
  {
    TrimPadding(pre, secret, post);
  }

  lemma {:induction false} TrimPadding(pre: string, s: string, post: string)
    requires AllSpace(pre) && AllSpace(post)
    requires s != [] && !IsJsSpace(s[0]) && !IsJsSpace(s[|s| - 1])
    ensures Trim(pre + s + post) == s
  {
    var rest := s + post;
    assert pre + s + post == pre + rest;
    TrimStartPadding(pre, rest);
    TrimEndPadding(s, post);
  }

  lemma {:induction false} TrimStartPadding(pre: string, rest: string)
    requires AllSpace(pre) && rest != [] && !IsJsSpace(rest[0])
    ensures TrimStart(pre + rest) == rest
  {
    if pre != [] {
      assert (pre + rest)[0] == pre[0];
      assert (pre + rest)[1..] == pre[1..] + rest;
      TrimStartPadding(pre[1..], rest);
    } else {
      assert pre + rest == rest;
    }
  }

  lemma {:induction false} TrimEndPadding(s: string, post: string)
    requires AllSpace(post) && s != [] && !IsJsSpace(s[|s| - 1])
    ensures TrimEnd(s + post) == s
  {
    if post != [] {
      var w := s + post;
      assert w[|w| - 1] == post[|post| - 1];
      assert w[..|w| - 1] == s + post[..|post| - 1];
      TrimEndPadding(s, post[..|post| - 1]);
    } else {
      assert s + post == s;
    }
  }

  // ---------------------------------------------------------------------------
  // A session of presses against one lock

  datatype Press = Press(now: int, input: string)

  /** The lock after the presses of ps, starting from lock. */
  function LockAfter(ps: seq<Press>, lock: int, secret: string): int
    decreases |ps|
  {
    if ps == [] then lock
    else
      var last := ps[|ps| - 1];
      Attempt(last.now, LockAfter(ps[..|ps| - 1], lock, secret), last.input, secret).lockUntil
  }

  /** How the i-th press of a session is answered. */
  function OutcomeAt(ps: seq<Press>, lock: int, secret: string, i: nat): Outcome
    requires i < |ps|
  {
    Attempt(ps[i].now, LockAfter(ps[..i], lock, secret), ps[i].input, secret).outcome
  }

  /** The lock never moves back in time. */
  lemma {:induction false} LockMonotone(ps: seq<Press>, lock: int, secret: string, i: nat, j: nat)
    requires i <= j <= |ps|
    ensures LockAfter(ps[..i], lock, secret) <= LockAfter(ps[..j], lock, secret)
    decreases j - i
  {
    if i < j {
      LockMonotone(ps, lock, secret, i, j - 1);
      assert ps[..j][..j - 1] == ps[..j - 1];
    }
  }

  /** A wrong code at press i locks every later press until 2000 ms have passed. */
  lemma {:induction false} LockedAfterWrong(ps: seq<Press>, lock: int, secret: string, i: nat, j: nat)
    requires i < j < |ps|
    requires OutcomeAt(ps, lock, secret, i) == Wrong
    ensures LockAfter(ps[..j], lock, secret) >= ps[i].now + COOLDOWN_MS
  {
    assert ps[..i + 1][..i] == ps[..i];
    assert LockAfter(ps[..i + 1], lock, secret) == ps[i].now + COOLDOWN_MS;
    LockMonotone(ps, lock, secret, i + 1, j);
  }

  /** Rate limit: two wrong codes are always at least 2000 ms apart, however the
      presses are timed. */
  lemma WrongAttemptsSpaced(ps: seq<Press>, lock: int, secret: string, i: nat, j: nat)
    requires i < j < |ps|
    requires OutcomeAt(ps, lock, secret, i) == Wrong && OutcomeAt(ps, lock, secret, j) == Wrong
    ensures ps[j].now >= ps[i].now + COOLDOWN_MS
  {
    LockedAfterWrong(ps, lock, secret, i, j);
  }
}
