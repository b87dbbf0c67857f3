/** Which custom arguments a checkpointed launch may carry: lazy-loading flags with one consistent mode. */
module CustomArguments {
  import opened Wrappers
  import opened Text

  const LAZY_FLAGS := ["--lazy-mode", "-lzm", "--tensor-read-lazy"]
  const MODES := ["auto", "on", "off"]
  const POSITIONAL := "<positional-argument>"

  predicate IsLetter(c: char) { 'a' <= c <= 'z' || 'A' <= c <= 'Z' }

  /** Trimmed and in lower case. */
  function Normalize(s: string): string { AsciiLowercase(Trim(s)) }

  function WithoutDashes(s: string): string { if s != "" && s[0] == '-' then WithoutDashes(s[1..]) else s }

  predicate LooksLikeFlag(token: string) {
    token != "" && token[0] == '-' && exists i :: 0 <= i < |WithoutDashes(token)| && IsLetter(WithoutDashes(token)[i])
  }

  /** `split_once('=')`: the part before the first equals sign, and the part after it if there is one. */
  function SplitOnce(token: string): (r: (string, Option<string>))
    ensures r.1.Some? ==> token == r.0 + "=" + r.1.value
    ensures r.1.None? ==> token == r.0
    ensures '=' !in r.0
  {
    if token == "" then ("", None)
    else if token[0] == '=' then ("", Some(token[1..]))
    else
      var (flag, value) := SplitOnce(token[1..]);
      ([token[0]] + flag, value)
  }

  lemma {:induction false} SplitAt(flag: string, value: string)
    requires '=' !in flag
    ensures SplitOnce(flag + "=" + value) == (flag, Some(value))
    ensures SplitOnce(flag) == (flag, None)
  {
    var token := flag + "=" + value;
    if flag != "" {
      assert token[1..] == flag[1..] + "=" + value;
      SplitAt(flag[1..], value);
      assert [flag[0]] + flag[1..] == flag;
    } else {
      assert token[1..] == value;
    }
  }

  // The grammar

  datatype Item = Inline(flag: string, value: string) | Spaced(flag: string, value: string)

  function Render(item: Item): seq<string> {
    match item
    case Inline(flag, value) => [flag + "=" + value]
    case Spaced(flag, value) => [flag, value]
  }

  function RenderAll(items: seq<Item>): seq<string> {
    if items == [] then [] else Render(items[0]) + RenderAll(items[1..])
  }

  predicate GoodItem(item: Item, mode: string) { item.flag in LAZY_FLAGS && Normalize(item.value) == mode }

  predicate GoodItems(items: seq<Item>, mode: string) { forall i :: 0 <= i < |items| ==> GoodItem(items[i], mode) }

  /** A mode that is one of the three and agrees with the structured setting, when that is set. */
  predicate GoodMode(mode: string, structured: string) { mode in MODES && (structured == "" || structured == mode) }

  /** The tokens are lazy-loading flags with their values, all carrying the same acceptable mode. */
  ghost predicate Recognized(tokens: seq<string>, structured: string) {
    tokens == [] || exists items, mode :: GoodMode(mode, structured) && GoodItems(items, mode) && RenderAll(items) == tokens
  }

  // The recognizer, token by token

  /** The value of the flag in front, and whether it took the next token. */
  function ValueOf(tokens: seq<string>): (r: (Option<string>, bool))
    requires tokens != []
    ensures r.1 ==> |tokens| > 1
  {
    var inline := SplitOnce(tokens[0]).1;
    if inline.Some? then (inline, false)
    else if |tokens| > 1 && !LooksLikeFlag(tokens[1]) then (Some(tokens[1]), true)
    else (None, false)
  }

  predicate Acceptable(value: Option<string>, structured: string, observed: Option<string>) {
    value.Some? && GoodMode(Normalize(value.value), structured) && (observed.Some? ==> observed.value == Normalize(value.value))
  }

  function Rest(tokens: seq<string>): seq<string>
    requires tokens != []
  {
    if ValueOf(tokens).1 then tokens[2..] else tokens[1..]
  }

  predicate Accepts(tokens: seq<string>, structured: string, observed: Option<string>)
    decreases |tokens|
  {
    tokens == [] ||
    (&& SplitOnce(tokens[0]).0 in LAZY_FLAGS && Acceptable(ValueOf(tokens).0, structured, observed)
     && Accepts(Rest(tokens), structured, Some(Normalize(ValueOf(tokens).0.value))))
  }

  lemma FlagsHaveNoEquals(flag: string)
    requires flag in LAZY_FLAGS
    ensures '=' !in flag
  {
  }

  lemma {:induction false} TrimKeepsDash(s: string)
    requires s != "" && s[0] == '-'
    ensures TrimStart(s) == s && TrimEnd(s) != "" && TrimEnd(s)[0] == '-'
  {
    if IsSpace(s[|s| - 1]) { TrimKeepsDash(s[..|s| - 1]); }
  }

  lemma DashStays(s: string)
    requires s != "" && s[0] == '-'
    ensures Normalize(s) != "" && Normalize(s)[0] == '-'
  {
    TrimKeepsDash(s);
  }

  /** A mode never looks like a flag, however it is written. */
  lemma ModeIsNoFlag(value: string)
    requires Normalize(value) in MODES
    ensures !LooksLikeFlag(value)
  {
    hide Normalize;
    assert forall m :: m in MODES ==> m != "" && m[0] != '-';
    if value != "" && value[0] == '-' {
      DashStays(value);
    }
  }

  /** Reading the front item off its rendering. */
  lemma FrontItem(item: Item, tail: seq<string>, mode: string)
    requires GoodItem(item, mode) && mode in MODES
    ensures var tokens := Render(item) + tail;
            && SplitOnce(tokens[0]).0 == item.flag && ValueOf(tokens).0 == Some(item.value) && Rest(tokens) == tail
  {
    hide Normalize, SplitOnce, LooksLikeFlag;
    FlagsHaveNoEquals(item.flag);
    SplitAt(item.flag, item.value);
    ModeIsNoFlag(item.value);
    var tokens := Render(item) + tail;
    if item.Spaced? {
      assert tokens[1] == item.value && tokens[2..] == tail;
    } else {
      assert tokens[1..] == tail;
    }
  }

  lemma {:induction false} RenderedIsAccepted(items: seq<Item>, mode: string, structured: string, observed: Option<string>)
    requires GoodMode(mode, structured) && GoodItems(items, mode) && (observed.Some? ==> observed.value == mode)
    ensures Accepts(RenderAll(items), structured, observed)
  {
    hide Normalize, SplitOnce, LooksLikeFlag, ValueOf, Rest;
    if items != [] {
      var tail := RenderAll(items[1..]);
      FrontItem(items[0], tail, mode);
      RenderedIsAccepted(items[1..], mode, structured, Some(mode));
    }
  }

  /** The front item, read off tokens that start with a flag and its value. */
  lemma FrontOf(tokens: seq<string>) returns (item: Item)
    requires tokens != [] && SplitOnce(tokens[0]).0 in LAZY_FLAGS && ValueOf(tokens).0.Some?
    ensures item.flag in LAZY_FLAGS && ValueOf(tokens).0 == Some(item.value) && tokens == Render(item) + Rest(tokens)
  {
    hide Normalize, LooksLikeFlag, SplitOnce;
    var (flag, inline) := SplitOnce(tokens[0]);
    var value := ValueOf(tokens).0.value;
    if inline.Some? {
      item := Inline(flag, value);
      assert tokens == [tokens[0]] + tokens[1..];
    } else {
      item := Spaced(flag, value);
      assert tokens == [tokens[0], tokens[1]] + tokens[2..];
    }
  }

  lemma AcceptableHasValue(value: Option<string>, structured: string, observed: Option<string>)
    requires Acceptable(value, structured, observed)
    ensures value.Some? && GoodMode(Normalize(value.value), structured)
    ensures observed.Some? ==> observed.value == Normalize(value.value)
  {
  }

  lemma {:induction false} AcceptedIsRendered(tokens: seq<string>, structured: string, observed: Option<string>, mode: string)
    returns (items: seq<Item>)
    requires Accepts(tokens, structured, observed) && (observed.Some? ==> observed.value == mode)
    requires observed.None? && tokens != [] ==> ValueOf(tokens).0.Some? && mode == Normalize(ValueOf(tokens).0.value)
    ensures GoodItems(items, mode) && RenderAll(items) == tokens
    decreases |tokens|
  {
    hide Normalize, SplitOnce, LooksLikeFlag, ValueOf, Rest, GoodMode;
    items := [];
    if tokens != [] {
      AcceptableHasValue(ValueOf(tokens).0, structured, observed);
      var item := FrontOf(tokens);
      ShorterRest(tokens);
      var more := AcceptedIsRendered(Rest(tokens), structured, Some(mode), mode);
      items := [item] + more;
      assert items[1..] == more;
    }
  }

  lemma ShorterRest(tokens: seq<string>)
    requires tokens != []
    ensures |Rest(tokens)| < |tokens|
  {
  }

  lemma AcceptsIffRecognized(tokens: seq<string>, structured: string)
    ensures Accepts(tokens, structured, None) <==> Recognized(tokens, structured)
  {
    hide Normalize, SplitOnce, LooksLikeFlag, GoodMode;
    if tokens != [] {
      if Accepts(tokens, structured, None) {
        AcceptableHasValue(ValueOf(tokens).0, structured, None);
        var mode := Normalize(ValueOf(tokens).0.value);
        hide Accepts, ValueOf;
        var items := AcceptedIsRendered(tokens, structured, None, mode);
      }
      if items, mode :| GoodMode(mode, structured) && GoodItems(items, mode) && RenderAll(items) == tokens {
        RenderedIsAccepted(items, mode, structured, None);
      }
    }
  }

  predicate Distinct(xs: seq<string>) { forall i, j :: 0 <= i < j < |xs| ==> xs[i] != xs[j] }

  // What the list names

  /** The token is the value of the flag before it: of a lazy-loading flag if it is no flag itself, of an unknown one if its flag part is none. */
  predicate Operand(tokens: seq<string>, i: nat)
    requires i < |tokens|
  {
    && i > 0 && !Operand(tokens, i - 1) && SplitOnce(tokens[i - 1]).1.None?
    && var flag := SplitOnce(tokens[i - 1]).0;
       if flag in LAZY_FLAGS then !LooksLikeFlag(tokens[i])
       else LooksLikeFlag(flag) && SplitOnce(tokens[i]).0 !in LAZY_FLAGS && !LooksLikeFlag(SplitOnce(tokens[i]).0)
  }

  /** The mode given to the flag at `i`, behind its equals sign or as the next token. */
  function ModeAt(tokens: seq<string>, i: nat): Option<string>
    requires i < |tokens|
  {
    var inline := SplitOnce(tokens[i]).1;
    if inline.Some? then Some(Normalize(inline.value))
    else if i + 1 < |tokens| && Operand(tokens, i + 1) then Some(Normalize(tokens[i + 1]))
    else None
  }

  /** A lazy-loading flag with a mode that it may have. */
  predicate GoodFlagAt(tokens: seq<string>, structured: string, i: nat)
    requires i < |tokens|
  {
    && !Operand(tokens, i) && SplitOnce(tokens[i]).0 in LAZY_FLAGS
    && ModeAt(tokens, i).Some? && GoodMode(ModeAt(tokens, i).value, structured)
  }

  /** The mode of the first such flag among the first `n` tokens. */
  function FirstMode(tokens: seq<string>, structured: string, n: nat): Option<string>
    requires n <= |tokens|
  {
    if n == 0 then None
    else if FirstMode(tokens, structured, n - 1).Some? then FirstMode(tokens, structured, n - 1)
    else if GoodFlagAt(tokens, structured, n - 1) then ModeAt(tokens, n - 1)
    else None
  }

  /** The token is no operand, and no lazy-loading flag whose mode may be and agrees with the first. */
  predicate Offends(tokens: seq<string>, structured: string, i: nat)
    requires i < |tokens|
  {
    && !Operand(tokens, i)
    && !(GoodFlagAt(tokens, structured, i) && FirstMode(tokens, structured, i + 1) == ModeAt(tokens, i))
  }

  function NameOf(token: string): string {
    var flag := SplitOnce(token).0;
    if flag in LAZY_FLAGS || LooksLikeFlag(flag) then flag else POSITIONAL
  }

  /** The names of the offending tokens among the first `n`, each once, in order. */
  function Offences(tokens: seq<string>, structured: string, n: nat): seq<string>
    requires n <= |tokens|
  {
    if n == 0 then []
    else
      var names := Offences(tokens, structured, n - 1);
      if Offends(tokens, structured, n - 1) && NameOf(tokens[n - 1]) !in names then names + [NameOf(tokens[n - 1])] else names
  }

  /** The list names exactly the offending tokens. */
  lemma {:induction false} OffencesAre(tokens: seq<string>, structured: string, n: nat)
    requires n <= |tokens|
    ensures forall b :: b in Offences(tokens, structured, n) <==>
              exists i :: 0 <= i < n && Offends(tokens, structured, i) && NameOf(tokens[i]) == b
    ensures Distinct(Offences(tokens, structured, n))
  {
    hide Offends, NameOf;
    if n > 0 { OffencesAre(tokens, structured, n - 1); }
  }

  /** One token that is no value of another, and the value it takes, if any. */
  lemma ItemAt(tokens: seq<string>, structured: string, i: nat, observed: Option<string>)
    requires i < |tokens| && !Operand(tokens, i) && observed == FirstMode(tokens, structured, i)
    ensures var rest := tokens[i..];
            && SplitOnce(rest[0]) == SplitOnce(tokens[i])
            && (SplitOnce(tokens[i]).0 in LAZY_FLAGS ==>
                  var value := ValueOf(rest).0;
                  && (ValueOf(rest).1 <==> i + 1 < |tokens| && SplitOnce(tokens[i]).1.None? && Operand(tokens, i + 1))
                  && (Offends(tokens, structured, i) <==> !Acceptable(value, structured, observed))
                  && (Acceptable(value, structured, observed) ==> FirstMode(tokens, structured, i + 1) == Some(Normalize(value.value)))
                  && (!Acceptable(value, structured, observed) ==> FirstMode(tokens, structured, i + 1) == observed))
            && (SplitOnce(tokens[i]).0 !in LAZY_FLAGS ==>
                  Offends(tokens, structured, i) && FirstMode(tokens, structured, i + 1) == observed)
  {
    hide Normalize, SplitOnce, LooksLikeFlag, GoodMode;
    assert tokens[i..][0] == tokens[i];
    if i + 1 < |tokens| { assert tokens[i..][1] == tokens[i + 1]; }
  }

  /** A value of another token adds nothing. */
  lemma OperandAt(tokens: seq<string>, structured: string, i: nat)
    requires i < |tokens| && Operand(tokens, i)
    ensures Offences(tokens, structured, i + 1) == Offences(tokens, structured, i)
    ensures FirstMode(tokens, structured, i + 1) == FirstMode(tokens, structured, i)
    ensures i + 1 < |tokens| ==> !Operand(tokens, i + 1)
  {
    hide Normalize, SplitOnce, LooksLikeFlag, GoodMode, NameOf;
  }

  method PushBlocker(blockers: seq<string>, blocker: string) returns (r: seq<string>)
    requires Distinct(blockers)
    ensures r == if blocker in blockers then blockers else blockers + [blocker]
    ensures r != [] && Distinct(r)
  {
    if blocker in blockers { return blockers; }
    return blockers + [blocker];
  }

  method Blockers(tokens: seq<string>, lazyMode: string) returns (blockers: seq<string>)
    ensures blockers == [] <==> Recognized(tokens, Normalize(lazyMode))
    // each offending token is named, once, in order: a flag by itself, a bare one as positional
    ensures blockers == Offences(tokens, Normalize(lazyMode), |tokens|) && Distinct(blockers)
    ensures forall b :: b in blockers <==>
              exists i :: 0 <= i < |tokens| && Offends(tokens, Normalize(lazyMode), i) && NameOf(tokens[i]) == b
  {
    hide Normalize, SplitOnce, LooksLikeFlag, GoodMode, Recognized, ValueOf, Distinct, Operand, Offends, FirstMode, ModeAt;
    NoneAreDistinct();
    blockers := [];
    var structured := Normalize(lazyMode);
    var observed: Option<string> := None;
    var pendingUnknownValue := false;
    AcceptsIffRecognized(tokens, structured);
    OffencesAre(tokens, structured, |tokens|);
    NothingBefore(tokens, structured);
    var index := 0;
    assert tokens[0..] == tokens;
    while index < |tokens|
      invariant 0 <= index <= |tokens| && Distinct(blockers)
      invariant blockers == [] ==> !pendingUnknownValue
      invariant Accepts(tokens, structured, None) <==> blockers == [] && Accepts(tokens[index..], structured, observed)
      invariant blockers == Offences(tokens, structured, index) && observed == FirstMode(tokens, structured, index)
      invariant index < |tokens| ==>
                  (Operand(tokens, index) <==>
                   pendingUnknownValue && SplitOnce(tokens[index]).0 !in LAZY_FLAGS && !LooksLikeFlag(SplitOnce(tokens[index]).0))
      decreases |tokens| - index
    {
      var rest := tokens[index..];
      var (flag, inline) := SplitOnce(rest[0]);
      if Operand(tokens, index) { OperandAt(tokens, structured, index); } else { ItemAt(tokens, structured, index, observed); }
      FollowedBy(tokens, index);
      if flag in LAZY_FLAGS {
        pendingUnknownValue := false;
        var (value, consumedNext) := ValueOf(rest);
        assert Rest(rest) == tokens[if consumedNext then index + 2 else index + 1..];
        if !Acceptable(value, structured, observed) {
          blockers := PushBlocker(blockers, flag);
        } else if observed.None? {
          observed := Some(Normalize(value.value));
        }
        if consumedNext { OperandAt(tokens, structured, index + 1); }
        index := index + if consumedNext then 2 else 1;
        continue;
      }
      if LooksLikeFlag(flag) {
        blockers := PushBlocker(blockers, flag);
        pendingUnknownValue := inline.None?;
      } else if pendingUnknownValue {
        pendingUnknownValue := false;
      } else {
        blockers := PushBlocker(blockers, POSITIONAL);
      }
      index := index + 1;
    }
  }

  lemma NothingBefore(tokens: seq<string>, structured: string)
    ensures Offences(tokens, structured, 0) == [] && FirstMode(tokens, structured, 0) == None
    ensures tokens != [] ==> !Operand(tokens, 0)
  {
  }

  /** When the next token is the value of this one. */
  lemma FollowedBy(tokens: seq<string>, i: nat)
    requires i < |tokens|
    ensures i + 1 < |tokens| ==>
              (Operand(tokens, i + 1) <==>
               && !Operand(tokens, i) && SplitOnce(tokens[i]).1.None?
               && if SplitOnce(tokens[i]).0 in LAZY_FLAGS then !LooksLikeFlag(tokens[i + 1])
                  else LooksLikeFlag(SplitOnce(tokens[i]).0)
                       && SplitOnce(tokens[i + 1]).0 !in LAZY_FLAGS && !LooksLikeFlag(SplitOnce(tokens[i + 1]).0))
  {
    hide SplitOnce, LooksLikeFlag;
  }

  lemma NoneAreDistinct() ensures Distinct([]) {
  }
}
