/**
 The cache key of a payload and a target host: SHA-256 over `payload`, a newline and the target. The hash is taken to be
 collision free, so the key is modelled by the text that is hashed.
 */
module CacheKey {
  import opened Text

  type Key = string

  /** `target_host or ''`: no target and an empty one are the same. */
  function TargetText(target: Option<string>): string {
    if target.None? then "" else target.value
  }

  function GenerateCacheKey(payload: string, target: Option<string>): Key {
    payload + "\n" + TargetText(target)
  }

  /** The text after the last newline. */
  function AfterLastNewline(s: string): string {
    if '\n' !in s then s else AfterLastNewline(s[1..])
  }

  lemma {:induction false} AfterLastNewlineOfKey(payload: string, target: string)
    requires '\n' !in target
    ensures AfterLastNewline(payload + "\n" + target) == target
  {
    var s := payload + "\n" + target;
    assert s[|payload|] == '\n';
    if payload == [] {
      assert s[1..] == target;
    } else {
      AfterLastNewlineOfKey(payload[1..], target);
      assert s[1..] == payload[1..] + "\n" + target;
    }
  }

  /** With targets free of newlines, keys are equal exactly when payload and target are; payloads may hold newlines. */
  lemma KeyInjective(p1: string, t1: Option<string>, p2: string, t2: Option<string>)
    requires '\n' !in TargetText(t1) && '\n' !in TargetText(t2)
    ensures GenerateCacheKey(p1, t1) == GenerateCacheKey(p2, t2) <==> p1 == p2 && TargetText(t1) == TargetText(t2)
  {
    AfterLastNewlineOfKey(p1, TargetText(t1));
    AfterLastNewlineOfKey(p2, TargetText(t2));
    var k1, k2 := GenerateCacheKey(p1, t1), GenerateCacheKey(p2, t2);
    if k1 == k2 {
      assert p1 == k1[..|k1| - |TargetText(t1)| - 1] && p2 == k2[..|k2| - |TargetText(t2)| - 1];
    }
  }

  lemma {:induction false} SplitAtLastNewline(s: string)
    requires '\n' in s
    ensures var last := AfterLastNewline(s);
            '\n' !in last && |last| < |s| && s == s[..|s| - |last| - 1] + "\n" + last
  {
    if '\n' !in s[1..] {
      assert s[0] == '\n' && s == "\n" + s[1..];
      assert AfterLastNewline(s) == s[1..];
    } else {
      SplitAtLastNewline(s[1..]);
      var last := AfterLastNewline(s[1..]);
      assert s[..|s| - |last| - 1] == [s[0]] + s[1..][..|s[1..]| - |last| - 1];
    }
  }

  /** A key made of a newline-free payload and a newline-free target can be made in no other way. */
  lemma CleanKeyIsUnique(p: string, t: string, p2: string, t2: string)
    requires '\n' !in p && '\n' !in t && p + "\n" + t == p2 + "\n" + t2
    ensures p2 == p && t2 == t
  {
    var k := p + "\n" + t;
    assert k == p2 + "\n" + t2;
    assert k[|p2|] == '\n';
    assert forall i | 0 <= i < |p| :: k[i] == p[i];
    assert forall i | |p| < i < |k| :: k[i] == t[i - |p| - 1];
    assert |p2| == |p|;
    assert p2 == k[..|p|] == p && t2 == k[|p| + 1..] == t;
  }

  /**
   Which requests share their key with a request for another target: exactly those with a newline in their payload or in
   their target.
   */
  lemma NewlinesCollide(p: string, t: string)
    ensures '\n' in p || '\n' in t <==>
            exists p2, t2 :: t2 != t && GenerateCacheKey(p2, Some(t2)) == GenerateCacheKey(p, Some(t))
  {
    if '\n' in t {
      SplitAtLastNewline(t);
      var t2 := AfterLastNewline(t);
      var p2 := p + "\n" + t[..|t| - |t2| - 1];
      assert GenerateCacheKey(p2, Some(t2)) == GenerateCacheKey(p, Some(t));
    } else if '\n' in p {
      SplitAtLastNewline(p);
      var tail := AfterLastNewline(p);
      var p2, t2 := p[..|p| - |tail| - 1], tail + "\n" + t;
      assert p == p2 + "\n" + tail;
      assert GenerateCacheKey(p2, Some(t2)) == GenerateCacheKey(p, Some(t));
    } else {
      forall p2, t2 | t2 != t ensures GenerateCacheKey(p2, Some(t2)) != GenerateCacheKey(p, Some(t)) {
        if GenerateCacheKey(p2, Some(t2)) == GenerateCacheKey(p, Some(t)) { CleanKeyIsUnique(p, t, p2, t2); }
      }
    }
  }
}
