/**
 * The dodge game's best score and the second clue it unlocks, kept in the browser's
 * localStorage. The store is a map from keys to strings; every operation returns the
 * store as it leaves it (reads can write: a missing best score is initialised, a
 * half-written unlock is erased).
 */
module Scores {
  import opened Wrappers
  import opened Text

  type Store = map<string, string>

  const GAME_BEST_KEY := "vd_game_best"
  const CLUE2_UNLOCK_KEY := "vd_clue2_unlocked"
  const CLUE2_UNLOCK_AT_KEY := "vd_clue2_unlocked_at"
  const INITIAL_BEST := 12

  /** A value read from the store together with the store after the read. */
  datatype Read<T> = Read(value: T, store: Store)

  /** `raw && !isNaN(Number(raw))`: present, non-empty and numeric. */
  function StoredNumber(st: Store, key: string): Option<int>
  {
    if key in st && st[key] != "" then JsNumber(st[key]) else None
  }

  /** The store changed at most at the keys of ks. */
  predicate SameExcept(st: Store, st': Store, ks: set<string>)
  {
    st - ks == st' - ks
  }

  // ---------------------------------------------------------------------------
  // getBestScore / setBestScore

  /** The stored best score; a missing or non-numeric entry is replaced by 12. */
  function GetBestScore(st: Store): (r: Read<int>)
    ensures GAME_BEST_KEY in r.store && StoredNumber(r.store, GAME_BEST_KEY) == Some(r.value)
    ensures StoredNumber(st, GAME_BEST_KEY).Some? ==> r.store == st
    ensures StoredNumber(st, GAME_BEST_KEY).None? ==> r.value == INITIAL_BEST
    ensures SameExcept(st, r.store, {GAME_BEST_KEY})
  {
    match StoredNumber(st, GAME_BEST_KEY)
    case Some(v) => Read(v, st)
    case None =>
      var st' := st[GAME_BEST_KEY := IntToString(INITIAL_BEST)];
      StoredAfterWrite(st, GAME_BEST_KEY, INITIAL_BEST);
      Read(INITIAL_BEST, st')
  }

  /** Writing `String(v)` under a key makes the key read back as v. */
  lemma StoredAfterWrite(st: Store, key: string, v: int)
    ensures var st' := st[key := IntToString(v)];
            key in st' && StoredNumber(st', key) == Some(v) && SameExcept(st, st', {key})
  {
    var st' := st[key := IntToString(v)];
    var text := IntToString(v);
    assert st'[key] == text && text != "";
    JsNumberIntToString(v);
    assert StoredNumber(st', key) == JsNumber(text);
    assert st' - {key} == st - {key};
  }

  /** Once read, the best score is stable: a second read returns it without writing. */
  lemma GetBestScoreIdempotent(st: Store)
    ensures GetBestScore(GetBestScore(st).store) == GetBestScore(st)
  {
  }

  function SetBestScore(st: Store, v: int): (st': Store)
  {
    st[GAME_BEST_KEY := IntToString(v)]
  }

  /** What setBestScore writes, getBestScore reads back unchanged. */
  lemma {:induction false} GetAfterSetBestScore(st: Store, v: int)
    ensures GetBestScore(SetBestScore(st, v)) == Read(v, SetBestScore(st, v))
    ensures SameExcept(st, SetBestScore(st, v), {GAME_BEST_KEY})
  {
    StoredAfterWrite(st, GAME_BEST_KEY, v);
  }

  // ---------------------------------------------------------------------------
  // isClue2Unlocked (script_bundle_fixed.js)

  predicate FlagSet(st: Store)
  {
    CLUE2_UNLOCK_KEY in st && st[CLUE2_UNLOCK_KEY] == "1"
  }

  /** `Number(atRaw)` with an absent entry read as NaN. */
  function UnlockedAt(st: Store): Option<int>
  {
    if CLUE2_UNLOCK_AT_KEY in st then JsNumber(st[CLUE2_UNLOCK_AT_KEY]) else None
  }

  predicate ValidAt(st: Store)
  {
    UnlockedAt(st).Some? && UnlockedAt(st).value > 0
  }

  /** The clue is shown only for a set flag together with a positive "unlocked at" score
      that the best score has reached; a flag without a usable "at" erases both keys. */
  function IsClue2Unlocked(st: Store): (r: Read<bool>)
    ensures r.value <==> FlagSet(st) && ValidAt(st) && UnlockedAt(st).value <= GetBestScore(st).value
    ensures FlagSet(st) && !ValidAt(st) ==>
              r.store == st - {CLUE2_UNLOCK_KEY, CLUE2_UNLOCK_AT_KEY}
    ensures !FlagSet(st) ==> r.store == st
    ensures FlagSet(st) && ValidAt(st) ==>
              SameExcept(st, r.store, {GAME_BEST_KEY}) && FlagSet(r.store) && ValidAt(r.store)
  {
    if !FlagSet(st) then Read(false, st)
    else
      var at := UnlockedAt(st);
      if at.None? || at.value <= 0 then
        Read(false, st - {CLUE2_UNLOCK_KEY, CLUE2_UNLOCK_AT_KEY})
      else
        var best := GetBestScore(st);
        Read(at.value <= best.value, best.store)
  }

  /** A check that found the flag invalid leaves a store that reads as locked without
      further writes. */
  lemma IsClue2UnlockedSettles(st: Store)
    ensures var once := IsClue2Unlocked(st);
            IsClue2Unlocked(once.store).value == once.value
  {
    var once := IsClue2Unlocked(st);
    if FlagSet(st) && ValidAt(st) {
      GetBestScoreIdempotent(st);
      assert UnlockedAt(once.store) == UnlockedAt(st);
    }
  }

  /** Repeated checks write nothing more: the store one check leaves is the store a
      second check leaves. */
  lemma IsClue2UnlockedStoreSettles(st: Store)
    ensures var once := IsClue2Unlocked(st).store;
            IsClue2Unlocked(once).store == once
  {
    if FlagSet(st) && ValidAt(st) {
      GetBestScoreIdempotent(st);
    }
  }

  // ---------------------------------------------------------------------------
  // unlockClue2

  /** The result of an unlock: whether the clue window was shown, and the store. */
  datatype Unlock = Unlock(shown: bool, store: Store)

  /** script_bundle_fixed.js: records the score the clue was unlocked at; `newBest || ...`
      falls back to the stored best when newBest is 0. */
  function UnlockClue2Bundle(st: Store, newBest: int): (r: Unlock)
    ensures IsClue2Unlocked(st).value ==> r == Unlock(false, IsClue2Unlocked(st).store)
    ensures !IsClue2Unlocked(st).value ==> r.shown && FlagSet(r.store)
    ensures !IsClue2Unlocked(st).value && newBest != 0 ==>
              UnlockedAt(r.store) == Some(newBest)
  {
    var check := IsClue2Unlocked(st);
    if check.value then Unlock(false, check.store)
    else
      var st1 := check.store[CLUE2_UNLOCK_KEY := "1"];
      var at := if newBest != 0 then Read(newBest, st1) else GetBestScore(st1);
      JsNumberIntToString(at.value);
      Unlock(true, at.store[CLUE2_UNLOCK_AT_KEY := IntToString(at.value)])
  }

  /** script_fixed.js: the flag alone decides. */
  function UnlockClue2Fixed(st: Store): (r: Unlock)
    ensures FlagSet(r.store)
    ensures r.shown <==> !FlagSet(st)
    ensures SameExcept(st, r.store, {CLUE2_UNLOCK_KEY})
  {
    if FlagSet(st) then Unlock(false, st)
    else Unlock(true, st[CLUE2_UNLOCK_KEY := "1"])
  }

  /** The clue window opens once: a second unlock changes nothing. */
  lemma UnlockClue2FixedIdempotent(st: Store)
    ensures var once := UnlockClue2Fixed(st);
            UnlockClue2Fixed(once.store) == Unlock(false, once.store)
  {
  }

  // ---------------------------------------------------------------------------
  // Game over

  datatype GameOver = GameOver(best: int, store: Store, shown: bool)

  /** script_bundle_fixed.js: a strictly better score becomes the best and unlocks
      the clue at that score. */
  function GameOverBundle(best: int, score: int, st: Store): (r: GameOver)
    ensures r.best == (if score > best then score else best)
    ensures score <= best ==> r.store == st && !r.shown
  {
    if score > best then
      var u := UnlockClue2Bundle(SetBestScore(st, score), score);
      GameOver(score, u.store, u.shown)
    else GameOver(best, st, false)
  }

  /** script_fixed.js: as above, with the flag-only unlock. */
  function GameOverFixed(best: int, score: int, st: Store): (r: GameOver)
    ensures r.best == (if score > best then score else best)
    ensures score <= best ==> r.store == st && !r.shown
    ensures score > best ==> FlagSet(r.store)
  {
    if score > best then
      var u := UnlockClue2Fixed(SetBestScore(st, score));
      GameOver(score, u.store, u.shown)
    else GameOver(best, st, false)
  }

  /** A new high score leaves the store with that score as best and with the clue
      unlocked, so the photo library shows it from then on. */
  lemma {:induction false} GameOverBundleUnlocks(best: int, score: int, st: Store)
    requires score > best && score > 0
    ensures var r := GameOverBundle(best, score, st);
            GetBestScore(r.store).value == score && IsClue2Unlocked(r.store).value
  {
    var st1 := SetBestScore(st, score);
    GetAfterSetBestScore(st, score);
    var check := IsClue2Unlocked(st1);
    var r := GameOverBundle(best, score, st);
    if check.value {
      assert r.store == check.store;
      assert SameExcept(st1, check.store, {GAME_BEST_KEY});
      GetBestScoreIdempotent(st1);
      assert GetBestScore(check.store).value == score;
      IsClue2UnlockedSettles(st1);
    } else {
      var st2 := check.store[CLUE2_UNLOCK_KEY := "1"];
      JsNumberIntToString(score);
      assert r.store == st2[CLUE2_UNLOCK_AT_KEY := IntToString(score)];
      assert GAME_BEST_KEY in check.store && check.store[GAME_BEST_KEY] == IntToString(score) by {
        if FlagSet(st1) && ValidAt(st1) {
          GetBestScoreIdempotent(st1);
        }
      }
      assert r.store[GAME_BEST_KEY] == IntToString(score);
      assert StoredNumber(r.store, GAME_BEST_KEY) == Some(score);
      assert UnlockedAt(r.store) == Some(score);
    }
  }

  /** A strictly better score leaves the store with that score as best, whatever the
      revision's unlock does next (the unlock only writes the clue keys). */
  lemma {:induction false} GameOverBundleBest(best: int, score: int, st: Store)
    requires score > best
    ensures GetBestScore(GameOverBundle(best, score, st).store).value == score
  {
    var st1 := SetBestScore(st, score);
    GetAfterSetBestScore(st, score);
    var check := IsClue2Unlocked(st1);
    var r := GameOverBundle(best, score, st);
    assert GAME_BEST_KEY in check.store && check.store[GAME_BEST_KEY] == IntToString(score) by {
      if FlagSet(st1) && ValidAt(st1) {
        GetBestScoreIdempotent(st1);
      }
    }
    JsNumberIntToString(score);
    if !check.value {
      var st2 := check.store[CLUE2_UNLOCK_KEY := "1"];
      assert StoredNumber(st2, GAME_BEST_KEY) == Some(score);
      assert r.store[GAME_BEST_KEY] == IntToString(score);
    }
    assert StoredNumber(r.store, GAME_BEST_KEY) == Some(score);
  }

  // ---------------------------------------------------------------------------
  // A round's end, as written and as intended

  /** Game over as written: the score is compared with the best the round read when it
      started (`best = getBestScore()` in `start`). */
  function RoundEnd(bundle: bool, best: int, score: int, st: Store): GameOver
  {
    if bundle then GameOverBundle(best, score, st) else GameOverFixed(best, score, st)
  }

  /** What a round's end leaves as the stored best: its score when that beats the best it
      compared with, otherwise the stored best as it was. */
  lemma {:induction false} RoundEndStoresBest(bundle: bool, best: int, score: int, st: Store)
    ensures GetBestScore(RoundEnd(bundle, best, score, st).store).value
            == (if score > best then score else GetBestScore(st).value)
  {
    if score > best {
      if bundle {
        GameOverBundleBest(best, score, st);
      } else {
        var st1 := SetBestScore(st, score);
        GetAfterSetBestScore(st, score);
        var r := GameOverFixed(best, score, st);
        assert GAME_BEST_KEY in st1 - {CLUE2_UNLOCK_KEY};
        assert GAME_BEST_KEY in r.store && r.store[GAME_BEST_KEY] == st1[GAME_BEST_KEY];
      }
    }
  }

  /** As written, two game windows whose rounds both started from the same best can
      lower the high score: the round that ends second still compares with the old best,
      so a score between the old best and the first round's new best overwrites it. */
  lemma OverlappingRoundsLowerBest(bundle: bool, best: int, first: int, second: int, st: Store)
    requires best < second < first
    ensures var st1 := RoundEnd(bundle, best, first, st).store;
            var st2 := RoundEnd(bundle, best, second, st1).store;
            GetBestScore(st1).value == first && GetBestScore(st2).value == second < first
  {
    RoundEndStoresBest(bundle, best, first, st);
    RoundEndStoresBest(bundle, best, second, RoundEnd(bundle, best, first, st).store);
  }

  /** Game over judged against the best stored when the round ends. */
  function RoundOver(bundle: bool, score: int, st: Store): GameOver
  {
    var b := GetBestScore(st);
    RoundEnd(bundle, b.value, score, b.store)
  }

  /** The stored best never goes down: after a round's end it is the larger of the old
      best and the score, and a new high score is reported exactly when the score beats
      the old best. */
  lemma {:induction false} RoundOverKeepsHighest(bundle: bool, score: int, st: Store)
    ensures var old_best := GetBestScore(st).value;
            var r := RoundOver(bundle, score, st);
            GetBestScore(r.store).value == r.best == (if score > old_best then score else old_best)
            && (!bundle ==> (r.shown <==> score > old_best && !FlagSet(st)))
  {
    var b := GetBestScore(st);
    RoundEndStoresBest(bundle, b.value, score, b.store);
    GetBestScoreIdempotent(st);
    if !bundle && score > b.value {
      assert CLUE2_UNLOCK_KEY in st - {GAME_BEST_KEY} <==> CLUE2_UNLOCK_KEY in SetBestScore(b.store, score) - {GAME_BEST_KEY};
    }
  }

  /** Without a concurrent round, the round's end is the same judged either way: the best
      read at the start is still the stored one. */
  lemma {:induction false} RoundOverAsWritten(bundle: bool, best: int, score: int, st: Store)
    requires StoredNumber(st, GAME_BEST_KEY) == Some(best)
    ensures RoundOver(bundle, score, st) == RoundEnd(bundle, best, score, st)
  {
  }
}
