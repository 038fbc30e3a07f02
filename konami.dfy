/**
 * The Konami-code hook: a window of the most recent key presses that fires,
 * and empties, when it spells the code exactly.
 */
module Konami {

  /** The code: up, up, down, down, left, right, left, right, b, a. */
  const KonamiCode: seq<string> :=
    ["ArrowUp", "ArrowUp", "ArrowDown", "ArrowDown", "ArrowLeft", "ArrowRight", "ArrowLeft", "ArrowRight", "b", "a"]

  /** The buffer after a key press, and whether the callback ran. */
  datatype Transition = Transition(keys: seq<string>, fired: bool)

  /** `s.slice(-n)` for n > 0: the last `n` elements, or all of `s` when it is shorter. */
  function LastN(s: seq<string>, n: nat): (r: seq<string>)
    requires n > 0
    ensures |r| == if |s| < n then |s| else n
    ensures r == s[|s| - |r|..]
  {
    if |s| <= n then s else s[|s| - n..]
  }

  /** The key normalisation of the handler, which keeps every key as it is. */
  function NormalizeKey(key: string): (r: string)
    ensures r == key
  {
    if key == "b" || key == "a" then key else key
  }

  /** The last ten keys of `keys` followed by `key` spell the code. */
  predicate EndsWithCode(keys: seq<string>, key: string) {
    |keys| + 1 >= |KonamiCode| && (keys + [key])[|keys| + 1 - |KonamiCode|..] == KonamiCode
  }

  /**
   * The handler of one `keydown` event: append the key, keep the last ten, and,
   * when they are the code, run the callback and empty the buffer.
   */
  function KeyHandler(keys: seq<string>, eventKey: string): (t: Transition)
    ensures |t.keys| <= |KonamiCode|
    ensures t.fired <==> EndsWithCode(keys, eventKey)
    ensures t.fired ==> t.keys == [] && eventKey == "a"
    ensures !t.fired ==> t.keys == LastN(keys + [eventKey], |KonamiCode|)
    ensures |keys| + 1 < |KonamiCode| ==> !t.fired
  {
    var key := NormalizeKey(eventKey);
    var updatedKeys := keys + [key];
    var recentKeys := LastN(updatedKeys, |KonamiCode|);
    var isKonamiCode := |recentKeys| == |KonamiCode| &&
      forall i :: 0 <= i < |recentKeys| ==> recentKeys[i] == KonamiCode[i];
    assert isKonamiCode ==> recentKeys[|recentKeys| - 1] == updatedKeys[|updatedKeys| - 1] == eventKey;
    if isKonamiCode then Transition([], true) else Transition(recentKeys, false)
  }

  /** Matching is case-sensitive: a "B" where the code has "b" never fires. */
  lemma UpperCaseBNeverMatches(keys: seq<string>)
    requires |keys| >= 9 && keys[|keys| - 1] == "B"
    ensures !KeyHandler(keys, "a").fired
  {
    var window := (keys + ["a"])[|keys| + 1 - |KonamiCode|..];
    assert window[8] == "B" != KonamiCode[8];
  }

  predicate IsSuffix(a: seq<string>, b: seq<string>) {
    |a| <= |b| && b[|b| - |a|..] == a
  }

  /** A run of key presses: the final buffer and how many times the callback ran. */
  datatype Session = Session(keys: seq<string>, fires: nat)

  function Run(keys: seq<string>, presses: seq<string>): (s: Session)
    decreases |presses|
  {
    if presses == [] then Session(keys, 0)
    else
      var before := Run(keys, presses[..|presses| - 1]);
      var t := KeyHandler(before.keys, presses[|presses| - 1]);
      Session(t.keys, before.fires + if t.fired then 1 else 0)
  }

  /** Appending a key to the last ten keys and keeping the last ten is taking the last ten of the longer text. */
  lemma LastNAppend(s: seq<string>, k: string, n: nat)
    requires n > 0
    ensures LastN(LastN(s, n) + [k], n) == LastN(s + [k], n)
  {
    var w := LastN(s, n);
    var all := s + [k];
    assert w + [k] == all[|all| - |w| - 1..];
  }

  /** A suffix stays a suffix when the same key is appended to both, and after keeping its last ten. */
  lemma SuffixAppend(a: seq<string>, b: seq<string>, k: string, n: nat)
    requires n > 0 && IsSuffix(a, b)
    ensures IsSuffix(LastN(a + [k], n), b + [k])
  {
    var all := b + [k];
    var r := LastN(a + [k], n);
    forall i | 0 <= i < |r|
      ensures r[i] == all[|all| - |r| + i]
    {
      var j := |a| + 1 - |r| + i;
      assert r[i] == (a + [k])[j];
      if j < |a| {
        assert a[j] == b[|b| - |a| + j];
      }
    }
    assert all[|all| - |r|..] == r;
  }

  /** One key press keeps the buffer short, a suffix of what was typed, and, without a fire, the last ten keys. */
  lemma KeyHandlerKeepsRecentKeys(keys: seq<string>, typed: seq<string>, k: string, exact: bool)
    requires IsSuffix(keys, typed)
    requires exact ==> keys == LastN(typed, |KonamiCode|)
    ensures IsSuffix(KeyHandler(keys, k).keys, typed + [k])
    ensures exact && !KeyHandler(keys, k).fired ==> KeyHandler(keys, k).keys == LastN(typed + [k], |KonamiCode|)
  {
    var t := KeyHandler(keys, k);
    if !t.fired {
      SuffixAppend(keys, typed, k, |KonamiCode|);
      if exact {
        LastNAppend(typed, k, |KonamiCode|);
      }
    }
  }

  /** Appending a non-empty run is appending its front and then its last key. */
  lemma AppendLast(keys: seq<string>, presses: seq<string>)
    requires presses != []
    ensures keys + presses == (keys + presses[..|presses| - 1]) + [presses[|presses| - 1]]
  {
    assert presses == presses[..|presses| - 1] + [presses[|presses| - 1]];
  }

  /**
   * The buffer always holds at most ten keys and is a suffix of everything typed;
   * while nothing fires it is exactly the last (up to) ten keys typed.
   */
  lemma {:induction false} RunKeepsRecentKeys(keys: seq<string>, presses: seq<string>)
    requires |keys| <= |KonamiCode|
    ensures |Run(keys, presses).keys| <= |KonamiCode|
    ensures IsSuffix(Run(keys, presses).keys, keys + presses)
    ensures Run(keys, presses).fires == 0 ==> Run(keys, presses).keys == LastN(keys + presses, |KonamiCode|)
    decreases |presses|
  {
    if presses == [] {
      assert keys + presses == keys;
    } else {
      var init := presses[..|presses| - 1];
      var k := presses[|presses| - 1];
      RunKeepsRecentKeys(keys, init);
      var before := Run(keys, init);
      var t := KeyHandler(before.keys, k);
      assert Run(keys, presses) == Session(t.keys, before.fires + if t.fired then 1 else 0);
      KeyHandlerKeepsRecentKeys(before.keys, keys + init, k, before.fires == 0);
      AppendLast(keys, presses);
    }
  }

  /** No strict prefix of the code ends with its last key "a". */
  lemma OnlyLastKeyIsA(i: nat)
    requires i < |KonamiCode| - 1
    ensures KonamiCode[i] != "a"
  {
  }

  /** Typing the first nine keys of the code never fires. */
  lemma {:induction false} CodePrefixDoesNotFire(keys: seq<string>, j: nat)
    requires |keys| <= |KonamiCode| && j < |KonamiCode|
    ensures Run(keys, KonamiCode[..j]).fires == 0
  {
    if j > 0 {
      var pre := KonamiCode[..j];
      assert pre[..j - 1] == KonamiCode[..j - 1];
      CodePrefixDoesNotFire(keys, j - 1);
      OnlyLastKeyIsA(j - 1);
      assert pre[j - 1] != "a";
    }
  }

  /** The window after the first nine keys of the code ends with those nine keys. */
  lemma WindowEndsWithPrefix(keys: seq<string>, w: seq<string>)
    requires |keys| <= |KonamiCode|
    requires w == LastN(keys + KonamiCode[..9], |KonamiCode|)
    ensures 9 <= |w| <= |KonamiCode|
    ensures forall i :: 0 <= i < 9 ==> w[|w| - 9 + i] == KonamiCode[i]
  {
    var prefix := KonamiCode[..9];
    var typed := keys + prefix;
    assert |typed| == |keys| + 9;
    assert w == typed[|typed| - |w|..];
    forall i | 0 <= i < 9
      ensures w[|w| - 9 + i] == KonamiCode[i]
    {
      assert w[|w| - 9 + i] == typed[|keys| + i];
      assert typed[|keys| + i] == prefix[i];
    }
  }

  /** A window ending with the first nine keys of the code fires on "a" and empties. */
  lemma FinalKeyFires(w: seq<string>)
    requires 9 <= |w| <= |KonamiCode|
    requires forall i :: 0 <= i < 9 ==> w[|w| - 9 + i] == KonamiCode[i]
    ensures KeyHandler(w, "a") == Transition([], true)
  {
    var window := (w + ["a"])[|w| + 1 - |KonamiCode|..];
    forall i | 0 <= i < |KonamiCode|
      ensures window[i] == KonamiCode[i]
    {
      if i < 9 {
        assert window[i] == w[|w| - 9 + i];
      }
    }
    assert window == KonamiCode;
    assert EndsWithCode(w, "a");
  }

  /**
   * Typing the whole code fires the callback exactly once, on the final "a",
   * whatever the buffer held before, and leaves the buffer empty.
   */
  lemma {:induction false} TypingTheCodeFiresOnce(keys: seq<string>)
    requires |keys| <= |KonamiCode|
    ensures Run(keys, KonamiCode) == Session([], 1)
  {
    var init := KonamiCode[..9];
    assert KonamiCode[..|KonamiCode| - 1] == init;
    CodePrefixDoesNotFire(keys, 9);
    RunKeepsRecentKeys(keys, init);
    var before := Run(keys, init);
    WindowEndsWithPrefix(keys, before.keys);
    FinalKeyFires(before.keys);
    assert Run(keys, KonamiCode) == Session(KeyHandler(before.keys, "a").keys, before.fires + 1);
  }
}
