/** Topic names, topic filters and the matcher (internal/mqttc/topic.go). */
module Topic {
  import opened Levels

  const MAX_TOPIC_BYTES := 65535

  datatype Verdict = Accepted | Rejected(reason: string)

  predicate HasWildcard(s: string) {
    '+' in s || '#' in s
  }

  /** The checks on a concrete topic name. `validUtf8` is Go's utf8.ValidString. */
  function ValidateTopic(topic: string, validUtf8: string -> bool): (v: Verdict)
    ensures v.Accepted? <==>
      1 <= |topic| <= MAX_TOPIC_BYTES && validUtf8(topic) && '\0' !in topic && NoWildcards(Split(topic, '/'))
  {
    PlainLevels(topic);
    if topic == "" then Rejected("empty")
    else if |topic| > MAX_TOPIC_BYTES then Rejected("too long")
    else if !validUtf8(topic) then Rejected("not UTF-8")
    else if HasWildcard(topic) then Rejected("wildcard")
    else if '\0' in topic then Rejected("null character")
    else Accepted
  }

  predicate NoWildcards(levels: seq<string>) {
    forall i :: 0 <= i < |levels| ==> !HasWildcard(levels[i])
  }

  /** A topic has a wildcard exactly when one of its levels has. */
  lemma {:induction false} PlainLevels(topic: string)
    ensures NoWildcards(Split(topic, '/')) <==> !HasWildcard(topic)
  {
    if topic != "" {
      var levels, rest := Split(topic, '/'), Split(topic[1..], '/');
      PlainLevels(topic[1..]);
      assert topic == [topic[0]] + topic[1..];
      if topic[0] == '/' {
        assert levels[1..] == rest;
        assert NoWildcards(levels) <==> !HasWildcard(levels[0]) && NoWildcards(levels[1..]);
      } else {
        assert levels[1..] == rest[1..] && levels[0] == [topic[0]] + rest[0];
        NoWildcardsCons(levels);
        NoWildcardsCons(rest);
      }
    }
  }

  lemma NoWildcardsCons(levels: seq<string>)
    requires |levels| > 0
    ensures NoWildcards(levels) <==> !HasWildcard(levels[0]) && NoWildcards(levels[1..])
  {
    assert forall i :: 1 <= i < |levels| ==> levels[i] == levels[1..][i - 1];
  }

  /** Where section 4.7.1 of MQTT 5.0 lets a wildcard stand. */
  ghost predicate WildcardsWellPlaced(levels: seq<string>) {
    forall i :: 0 <= i < |levels| ==>
      (HasWildcard(levels[i]) ==> levels[i] == "+" || (levels[i] == "#" && i == |levels| - 1))
  }

  method ValidateFilter(filter: string, validUtf8: string -> bool) returns (v: Verdict)
    ensures v.Accepted? <==> FilterAccepted(filter, validUtf8)
  {
    if filter == "" { return Rejected("empty"); }
    if |filter| > MAX_TOPIC_BYTES { return Rejected("too long"); }
    if !validUtf8(filter) { return Rejected("not UTF-8"); }
    if '\0' in filter { return Rejected("null character"); }
    var levels := Split(filter, '/');
    for i := 0 to |levels|
      invariant forall k :: 0 <= k < i ==>
        (HasWildcard(levels[k]) ==> levels[k] == "+" || (levels[k] == "#" && k == |levels| - 1))
    {
      var level := levels[i];
      if level == "#" {
        if i != |levels| - 1 { return Rejected("# must be last"); }
      } else if level == "+" {
      } else if HasWildcard(level) {
        return Rejected("wildcard inside a level");
      }
    }
    return Accepted;
  }

  ghost predicate FilterAccepted(filter: string, validUtf8: string -> bool) {
    filter != "" && |filter| <= MAX_TOPIC_BYTES && validUtf8(filter) && '\0' !in filter
    && WildcardsWellPlaced(Split(filter, '/'))
  }

  /** A filter that starts with a wildcard does not reach the `$` namespace. */
  predicate Reserved(fl: seq<string>, tl: seq<string>)
    requires |fl| > 0 && |tl| > 0
  {
    |tl[0]| > 0 && tl[0][0] == '$' && (fl[0] == "#" || fl[0] == "+")
  }

  /** Level-by-level matching, one level at a time. */
  predicate LevelsMatch(fl: seq<string>, tl: seq<string>) {
    if |fl| == 0 then |tl| == 0
    else if fl[0] == "#" then true
    else |tl| > 0 && (fl[0] == "+" || fl[0] == tl[0]) && LevelsMatch(fl[1..], tl[1..])
  }

  /** What matching answers, for any two strings. */
  predicate Matches(filter: string, topic: string) {
    var fl, tl := Split(filter, '/'), Split(topic, '/');
    !Reserved(fl, tl) && LevelsMatch(fl, tl)
  }

  method MatchFilter(filter: string, topic: string) returns (ok: bool)
    ensures ok == Matches(filter, topic)
  {
    if filter == topic {
      MatchesSelf(Split(filter, '/'));
      return true;
    }
    var fl, tl := Split(filter, '/'), Split(topic, '/');
    if |tl[0]| > 0 && tl[0][0] == '$' && (fl[0] == "#" || fl[0] == "+") {
      return false;
    }
    for i := 0 to |fl|
      invariant i <= |tl|
      invariant LevelsMatch(fl, tl) == LevelsMatch(fl[i..], tl[i..])
    {
      var f := fl[i];
      assert fl[i..][1..] == fl[i + 1..];
      if f == "#" { return true; }
      if i >= |tl| { return false; }
      assert tl[i..][1..] == tl[i + 1..];
      if f != "+" && f != tl[i] { return false; }
    }
    return |fl| == |tl|;
  }

  /** The string-equality shortcut never changes the answer, whatever the strings. */
  lemma {:induction false} MatchesSelf(levels: seq<string>)
    ensures LevelsMatch(levels, levels)
  {
    if |levels| > 0 { MatchesSelf(levels[1..]); }
  }

  /** The filter's levels agree with the topic's, position by position. */
  ghost predicate Agree(fl: seq<string>, tl: seq<string>) {
    |fl| <= |tl| && forall i :: 0 <= i < |fl| ==> fl[i] == "+" || fl[i] == tl[i]
  }

  /** Section 4.7 of MQTT 5.0, without recursion: a trailing `#` stands for the parent and any
      number of further levels, `+` for exactly one level, and `$` topics need a literal first level. */
  ghost predicate Section47(filter: string, topic: string) {
    var fl, tl := Split(filter, '/'), Split(topic, '/');
    && !(|topic| > 0 && topic[0] == '$' && (fl[0] == "#" || fl[0] == "+"))
    && if fl[|fl| - 1] == "#" then Agree(fl[..|fl| - 1], tl) else |fl| == |tl| && Agree(fl, tl)
  }

  /** Where the first `#` stands; the length when there is none. */
  function FirstHash(fl: seq<string>): (k: nat)
    ensures k <= |fl| && (forall i :: 0 <= i < k ==> fl[i] != "#") && (k < |fl| ==> fl[k] == "#")
  {
    if fl == [] || fl[0] == "#" then 0 else 1 + FirstHash(fl[1..])
  }

  /** Whatever the levels: matching is agreement position by position, up to the first `#`. */
  lemma {:induction false} LevelsMatchIsAgree(fl: seq<string>, tl: seq<string>)
    ensures LevelsMatch(fl, tl) <==>
      var k := FirstHash(fl); if k < |fl| then Agree(fl[..k], tl) else |fl| == |tl| && Agree(fl, tl)
  {
    if |fl| > 0 && fl[0] != "#" && |tl| > 0 {
      var k := FirstHash(fl);
      LevelsMatchIsAgree(fl[1..], tl[1..]);
      AgreeCons(fl, tl);
      if k < |fl| {
        assert fl[..k][1..] == fl[1..][..k - 1];
        AgreeCons(fl[..k], tl);
      }
    }
  }

  /** Where wildcards may stand, a `#` is the last level. */
  lemma HashIsLast(fl: seq<string>)
    requires WildcardsWellPlaced(fl) && |fl| > 0
    ensures FirstHash(fl) == if fl[|fl| - 1] == "#" then |fl| - 1 else |fl|
  {
    var k := FirstHash(fl);
    if k < |fl| { assert HasWildcard(fl[k]); }
  }

  lemma AgreeCons(fl: seq<string>, tl: seq<string>)
    requires |fl| > 0 && |tl| > 0
    ensures Agree(fl, tl) <==> (fl[0] == "+" || fl[0] == tl[0]) && Agree(fl[1..], tl[1..])
  {
    if (fl[0] == "+" || fl[0] == tl[0]) && Agree(fl[1..], tl[1..]) {
      forall i | 0 <= i < |fl| ensures fl[i] == "+" || fl[i] == tl[i] {
        if i > 0 { assert fl[i] == fl[1..][i - 1] && tl[i] == tl[1..][i - 1]; }
      }
    }
  }

  lemma FirstLevel(topic: string)
    ensures var first := Split(topic, '/')[0];
      |first| > 0 && first[0] == '$' <==> |topic| > 0 && topic[0] == '$'
  {
  }

  /** Every accepted filter matches exactly the topics section 4.7 says it does. */
  lemma MatchesIsSection47(filter: string, topic: string, validUtf8: string -> bool)
    requires FilterAccepted(filter, validUtf8)
    ensures Matches(filter, topic) <==> Section47(filter, topic)
  {
    LevelsMatchIsAgree(Split(filter, '/'), Split(topic, '/'));
    HashIsLast(Split(filter, '/'));
    FirstLevel(topic);
  }

  /** `#` after a prefix matches the prefix itself and everything below it. */
  lemma HashMatchesParent(prefix: string, topic: string, validUtf8: string -> bool)
    requires FilterAccepted(prefix + "/#", validUtf8)
    requires !HasWildcard(prefix)
    ensures Matches(prefix + "/#", topic) <==>
      Split(prefix, '/') <= Split(topic, '/')
  {
    var pl, tl := Split(prefix, '/'), Split(topic, '/');
    HashLevels(prefix);
    PlainLevels(prefix);
    MatchesIsSection47(prefix + "/#", topic, validUtf8);
    PlainAgree(pl, tl);
  }

  lemma HashLevels(prefix: string)
    ensures var pl, fl := Split(prefix, '/'), Split(prefix + "/#", '/');
      fl == pl + ["#"] && fl[..|fl| - 1] == pl
  {
    SplitAppend(prefix, "#", '/');
    assert prefix + "/#" == prefix + ['/'] + "#";
    SplitPart("#", "", '/');
  }

  /** Levels without wildcards agree exactly with the topics that start with them. */
  lemma PlainAgree(pl: seq<string>, tl: seq<string>)
    requires NoWildcards(pl)
    ensures Agree(pl, tl) <==> pl <= tl
    ensures |pl| > 0 ==> pl[0] != "+" && pl[0] != "#"
  {
    assert forall i :: 0 <= i < |pl| ==> !HasWildcard(pl[i]) && pl[i] != "+" && pl[i] != "#";
    if pl <= tl { assert forall i :: 0 <= i < |pl| ==> pl[i] == tl[i]; }
  }
}
