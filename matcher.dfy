/** The topic matcher `mqttTopicMatch`: a pattern with at most one wildcard
    (the first '#', or failing that the first '+') is split into the text
    before and after it, and a topic matches when it starts with the first part
    and ends with the second. The two parts may overlap inside the topic. For
    '+' the text between them must also hold no '/'. This is the code's own
    rule, not the matching rule of the MQTT standard. */
module Matcher {

  /** `String::indexOf(c)`: the first position of `c` in `s`, or -1. */
  function IndexOf(s: string, c: char): (r: int)
    ensures -1 <= r < |s|
    ensures r == -1 <==> c !in s
    ensures 0 <= r ==> s[r] == c && c !in s[..r]
  {
    assert s[0..] == s;
    IndexFrom(s, c, 0)
  }

  /** The first position of `c` in `s` at or after `i`, or -1. */
  function IndexFrom(s: string, c: char, i: nat): (r: int)
    requires i <= |s|
    ensures -1 <= r < |s|
    ensures r == -1 <==> c !in s[i..]
    ensures 0 <= r ==> i <= r && s[r] == c && c !in s[i..r]
    decreases |s| - i
  {
    if i == |s| then -1
    else if s[i] == c then i
    else
      var r := IndexFrom(s, c, i + 1);
      assert s[i..] == [s[i]] + s[i + 1..];
      assert r >= 0 ==> s[i..r] == [s[i]] + s[i + 1..r];
      r
  }

  /** `String::substring(left, right)`: the bounds are swapped when
      `left > right`, the result is empty when the lower bound is at or past
      the end, and the upper bound is clamped to the length. */
  function Substring(s: string, left: nat, right: nat): (r: string)
    ensures left <= right <= |s| ==> r == s[left..right]
    ensures |r| <= |s|
  {
    var lo := if left > right then right else left;
    var hi := if left > right then left else right;
    if lo >= |s| then [] else s[lo..if hi > |s| then |s| else hi]
  }

  /** `String::substring(left)`, which is `substring(left, length())`. */
  function SubstringFrom(s: string, left: nat): (r: string)
    ensures left <= |s| ==> r == s[left..]
  {
    Substring(s, left, |s|)
  }

  /** `String::startsWith(p)`. */
  predicate StartsWith(s: string, p: string)
  {
    |p| <= |s| && s[..|p|] == p
  }

  /** `String::endsWith(p)`. */
  predicate EndsWith(s: string, p: string)
  {
    |p| <= |s| && s[|s| - |p|..] == p
  }

  /** The prefix and suffix test shared by both wildcard branches. */
  predicate Ends(topic: string, before: string, after: string)
  {
    (|before| == 0 || StartsWith(topic, before)) && (|after| == 0 || EndsWith(topic, after))
  }

  /** `mqttTopicMatch(pattern, topic)`. */
  function TopicMatch(pattern: string, topic: string): bool
  {
    var h := IndexOf(pattern, '#');
    if h >= 0 then
      Ends(topic, Substring(pattern, 0, h), SubstringFrom(pattern, h + 1))
    else
      var p := IndexOf(pattern, '+');
      if p >= 0 then
        var before := Substring(pattern, 0, p);
        var after := SubstringFrom(pattern, p + 1);
        if Ends(topic, before, after) then
          IndexOf(Substring(topic, |before|, |topic| - |after|), '/') == -1
        else false
      else pattern == topic
  }

  /** The first occurrence of `c` in `a + [c] + b` is at `|a|` when `a` has no `c`. */
  lemma IndexOfSplit(a: string, c: char, b: string)
    requires c !in a
    ensures IndexOf(a + [c] + b, c) == |a|
  {
    assert (a + [c] + b)[|a|] == c;
  }

  /** The two halves around the wildcard are exactly `a` and `b`. */
  lemma SplitHalves(a: string, c: char, b: string)
    ensures Substring(a + [c] + b, 0, |a|) == a
    ensures SubstringFrom(a + [c] + b, |a| + 1) == b
  {
    var s := a + [c] + b;
    assert s[0..|a|] == a;
    assert s[|a| + 1..] == b;
  }

  /** Without a wildcard, matching is string equality. */
  lemma MatchExact(pattern: string, topic: string)
    requires '#' !in pattern && '+' !in pattern
    ensures TopicMatch(pattern, topic) <==> pattern == topic
  {
  }

  /** The shared prefix and suffix test, with its "or empty" escapes folded in. */
  lemma EndsIff(topic: string, before: string, after: string)
    ensures Ends(topic, before, after) <==> before <= topic && EndsWith(topic, after)
  {
    assert |before| == 0 ==> topic[..0] == before;
    assert |after| == 0 ==> topic[|topic|..] == after;
  }

  /** With `a` and `b` the text before and after the first '#', a topic matches
      iff it starts with `a` and ends with `b`; the middle is unconstrained and
      any '+' in the pattern is ignored. An empty `a` or `b` asks nothing. */
  lemma MatchMultiLevel(a: string, b: string, topic: string)
    requires '#' !in a
    ensures TopicMatch(a + "#" + b, topic) <==> a <= topic && EndsWith(topic, b)
  {
    IndexOfSplit(a, '#', b);
    SplitHalves(a, '#', b);
    EndsIff(topic, a, b);
  }

  /** The text `Substring` leaves between a prefix of length `n` and a suffix
      of length `m`, when both fit in `topic`: the bounds are taken in order. */
  lemma MiddleText(topic: string, n: nat, m: nat)
    requires n <= |topic| && m <= |topic|
    ensures Substring(topic, n, |topic| - m) ==
      if n <= |topic| - m then topic[n..|topic| - m] else topic[|topic| - m..n]
  {
  }

  /** With `a` and `b` the text before and after the first '+' of a pattern
      without '#', a topic matches iff it starts with `a`, ends with `b`, and
      the text between position |a| and position |topic| - |b| (taken in
      either order, since the two parts may overlap) holds no '/'. */
  lemma MatchSingleLevel(a: string, b: string, topic: string)
    requires '#' !in a && '#' !in b && '+' !in a
    ensures TopicMatch(a + "+" + b, topic) <==>
      a <= topic && EndsWith(topic, b) &&
      '/' !in (if |a| <= |topic| - |b| then topic[|a|..|topic| - |b|] else topic[|topic| - |b|..|a|])
  {
    var pattern := a + "+" + b;
    assert '#' !in pattern;
    IndexOfSplit(a, '+', b);
    SplitHalves(a, '+', b);
    EndsIff(topic, a, b);
    if a <= topic && EndsWith(topic, b) {
      MiddleText(topic, |a|, |b|);
    }
  }

  /** A lone '#' matches every topic. */
  lemma LoneHashMatchesAll(topic: string)
    ensures TopicMatch("#", topic)
  {
    MatchMultiLevel("", "", topic);
  }

  /** A lone '+' matches exactly the topics without '/'. */
  lemma LonePlusMatchesOneLevel(topic: string)
    ensures TopicMatch("+", topic) <==> '/' !in topic
  {
    MatchSingleLevel("", "", topic);
    assert topic[0..|topic|] == topic;
  }

  /** The two parts may overlap: "xy#yx" matches "xyx", whose length is less
      than the lengths of "xy" and "yx" together. */
  lemma OverlapMatches(x: char, y: char)
    requires x != '#' && y != '#'
    ensures TopicMatch([x, y, '#', y, x], [x, y, x])
  {
    assert [x, y, '#', y, x] == [x, y] + "#" + [y, x];
    MatchMultiLevel([x, y], [y, x], [x, y, x]);
  }

  /** "root/#" matches every topic below "root/", however many levels deep
      (so "sensors/#" matches "sensors/temp/outdoor"). */
  lemma HashSpansLevels(root: string, rest: string)
    requires '#' !in root
    ensures TopicMatch(root + "/#", root + "/" + rest)
  {
    assert root + "/#" == (root + "/") + "#" + "";
    MatchMultiLevel(root + "/", "", root + "/" + rest);
  }

  /** "root/+/leaf" matches "root/level/leaf" when `level` is one level (so
      "sensors/+/outdoor" matches "sensors/temp/outdoor"). */
  lemma PlusSpansOneLevel(root: string, level: string, leaf: string)
    requires '#' !in root && '+' !in root && '#' !in leaf && '/' !in level
    ensures TopicMatch(root + "/+/" + leaf, root + "/" + level + "/" + leaf)
  {
    var a, b := root + "/", "/" + leaf;
    var topic := root + "/" + level + "/" + leaf;
    assert root + "/+/" + leaf == a + "+" + b;
    assert topic == a + level + b;
    MatchSingleLevel(a, b, topic);
    assert topic[|a|..|topic| - |b|] == level;
  }

  /** "root/+/leaf" rejects a topic with two levels between "root/" and
      "/leaf" (so "sensors/+/outdoor" rejects "sensors/a/b/outdoor"). */
  lemma PlusRejectsTwoLevels(root: string, upper: string, lower: string, leaf: string)
    requires '#' !in root && '+' !in root && '#' !in leaf
    ensures !TopicMatch(root + "/+/" + leaf, root + "/" + upper + "/" + lower + "/" + leaf)
  {
    var a, b := root + "/", "/" + leaf;
    var middle := upper + "/" + lower;
    var topic := root + "/" + upper + "/" + lower + "/" + leaf;
    assert root + "/+/" + leaf == a + "+" + b;
    assert topic == a + middle + b;
    MatchSingleLevel(a, b, topic);
    assert topic[|a|..|topic| - |b|] == middle;
    assert middle[|upper|] == '/';
  }
}
