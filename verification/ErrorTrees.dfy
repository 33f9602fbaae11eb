/**
 Errors as trees, with Go's errors.Is and errors.As as pre-order searches; the code an error carries
 across the C boundary; and the classification of action failures.
 */
module ErrorTrees {
  import opened Prelude

  /** `Wrapf` is fmt.Errorf with one %w; `Join` is errors.Join of one or more errors. */
  datatype Err =
    | Msg(text: string)
    | Canceled
    | DeadlineExceeded
    | ReleaseNotFound
    | Coded(code: Code, err: Err)
    | Wrapf(pre: string, err: Err, post: string)
    | Join(first: Err, rest: seq<Err>)

  function CodeNumber(c: Code): (n: int)
    ensures n == 0 <==> c.OK?
    ensures n <= 0
  {
    match c
    case OK => 0
    case Unknown => -1
    case InvalidArg => -2
    case InvalidHandle => -3
    case WrongHandleType => -4
    case Panic => -5
    case Cancelled => -6
    case NotFound => -7
    case IO => -8
    case ChartLoad => -20
    case ChartInvalid => -21
    case Values => -22
    case Render => -23
    case RegistryErr => -40
    case Repo => -41
    case Kube => -60
    case Storage => -61
    case ReleaseErr => -62
  }

  /** The numbers are ABI: no two codes share one. */
  lemma CodeNumbersDiffer(a: Code, b: Code)
    requires CodeNumber(a) == CodeNumber(b)
    ensures a == b
  {
  }

  function Text(e: Err): string {
    match e
    case Msg(text) => text
    case Canceled => "context canceled"
    case DeadlineExceeded => "context deadline exceeded"
    case ReleaseNotFound => "release: not found"
    case Coded(_, err) => Text(err)
    case Wrapf(pre, err, post) => pre + Text(err) + post
    case Join(first, rest) => Text(first) + Texts(rest)
  }

  function Texts(es: seq<Err>): string {
    if es == [] then "" else "\n" + Text(es[0]) + Texts(es[1..])
  }

  /** errors.Is against a sentinel. */
  predicate Is(e: Err, target: Err) {
    e == target ||
    match e
    case Coded(_, err) => Is(err, target)
    case Wrapf(_, err, _) => Is(err, target)
    case Join(first, rest) => Is(first, target) || AnyIs(rest, target)
    case _ => false
  }

  predicate AnyIs(es: seq<Err>, target: Err) {
    es != [] && (Is(es[0], target) || AnyIs(es[1..], target))
  }

  /** errors.As for *CodedError: the code of the one it finds. */
  function AsCoded(e: Err): Option<Code> {
    match e
    case Coded(code, _) => Some(code)
    case Wrapf(_, err, _) => AsCoded(err)
    case Join(first, rest) =>
      var c := AsCoded(first);
      if c.Some? then c else AsCodedIn(rest)
    case _ => None
  }

  function AsCodedIn(es: seq<Err>): Option<Code> {
    if es == [] then None
    else
      var c := AsCoded(es[0]);
      if c.Some? then c else AsCodedIn(es[1..])
  }

  predicate IsCancellation(e: Err) {
    Is(e, Canceled) || Is(e, DeadlineExceeded)
  }

  /** FromError; `None` is the nil error. */
  function FromError(e: Option<Err>): Code {
    if e.None? then OK
    else
      var coded := AsCoded(e.value);
      if coded.Some? then coded.value
      else if IsCancellation(e.value) then Cancelled
      else Unknown
  }

  function WithCode(code: Code, e: Option<Err>): Option<Err> {
    if e.None? then None else Some(Coded(code, e.value))
  }

  // ---- The searches against the pre-order listing -------------------------

  /** The nodes of an error tree in pre-order. */
  function Nodes(e: Err): seq<Err> {
    [e] + match e
          case Coded(_, err) => Nodes(err)
          case Wrapf(_, err, _) => Nodes(err)
          case Join(first, rest) => Nodes(first) + AllNodes(rest)
          case _ => []
  }

  function AllNodes(es: seq<Err>): seq<Err> {
    if es == [] then [] else Nodes(es[0]) + AllNodes(es[1..])
  }

  function FirstCode(nodes: seq<Err>): Option<Code> {
    if nodes == [] then None
    else if nodes[0].Coded? then Some(nodes[0].code)
    else FirstCode(nodes[1..])
  }

  lemma {:induction false} FirstCodeConcat(a: seq<Err>, b: seq<Err>)
    ensures FirstCode(a + b) == if FirstCode(a).Some? then FirstCode(a) else FirstCode(b)
  {
    if a == [] {
      assert a + b == b;
    } else {
      assert (a + b)[1..] == a[1..] + b;
      FirstCodeConcat(a[1..], b);
    }
  }

  /** errors.As finds the first, hence outermost, CodedError in pre-order. */
  lemma {:induction false} AsCodedIsFirst(e: Err)
    ensures AsCoded(e) == FirstCode(Nodes(e))
  {
    match e
    case Coded(_, err) => assert ([e] + Nodes(err))[0] == e;
    case Wrapf(_, err, _) =>
      AsCodedIsFirst(err);
      assert Nodes(e)[1..] == Nodes(err);
    case Join(first, rest) =>
      AsCodedIsFirst(first);
      AsCodedInIsFirst(rest);
      FirstCodeConcat(Nodes(first), AllNodes(rest));
      assert Nodes(e)[1..] == Nodes(first) + AllNodes(rest);
    case _ =>
  }

  lemma {:induction false} AsCodedInIsFirst(es: seq<Err>)
    ensures AsCodedIn(es) == FirstCode(AllNodes(es))
  {
    if es != [] {
      AsCodedIsFirst(es[0]);
      AsCodedInIsFirst(es[1..]);
      FirstCodeConcat(Nodes(es[0]), AllNodes(es[1..]));
    }
  }

  lemma {:induction false} IsFindsNodes(e: Err, target: Err)
    ensures Is(e, target) <==> target in Nodes(e)
  {
    match e
    case Coded(_, err) => IsFindsNodes(err, target);
    case Wrapf(_, err, _) => IsFindsNodes(err, target);
    case Join(_, _) =>
      IsFindsNodes(e.first, target);
      AnyIsFindsNodes(e.rest, target);
    case _ =>
  }

  lemma {:induction false} AnyIsFindsNodes(es: seq<Err>, target: Err)
    ensures AnyIs(es, target) <==> target in AllNodes(es)
  {
    if es != [] {
      IsFindsNodes(es[0], target);
      AnyIsFindsNodes(es[1..], target);
    }
  }

  /** The code at the boundary, read off the pre-order listing alone. */
  lemma FromErrorIsPreOrder(e: Err)
    ensures FromError(Some(e)) ==
            if FirstCode(Nodes(e)).Some? then FirstCode(Nodes(e)).value
            else if Canceled in Nodes(e) || DeadlineExceeded in Nodes(e) then Cancelled
            else Unknown
  {
    AsCodedIsFirst(e);
    IsFindsNodes(e, Canceled);
    IsFindsNodes(e, DeadlineExceeded);
  }

  // ---- Outermost, not innermost -------------------------------------------

  /** The CodedError errors.As finds, whose code FromError reports. */
  function Found(e: Err): Option<Err> {
    match e
    case Coded(_, _) => Some(e)
    case Wrapf(_, err, _) => Found(err)
    case Join(first, rest) => if Found(first).Some? then Found(first) else FoundIn(rest)
    case _ => None
  }

  function FoundIn(es: seq<Err>): Option<Err> {
    if es == [] then None else if Found(es[0]).Some? then Found(es[0]) else FoundIn(es[1..])
  }

  lemma {:induction false} FoundIsReported(e: Err)
    ensures Found(e).None? <==> AsCoded(e).None?
    ensures Found(e).Some? ==> Found(e).value.Coded? && AsCoded(e) == Some(Found(e).value.code)
    ensures Found(e).Some? ==> Found(e).value in Nodes(e)
  {
    match e
    case Wrapf(_, err, _) => FoundIsReported(err);
    case Join(_, _) =>
      FoundIsReported(e.first);
      FoundInIsReported(e.rest);
    case _ =>
  }

  lemma {:induction false} FoundInIsReported(es: seq<Err>)
    ensures FoundIn(es).None? <==> AsCodedIn(es).None?
    ensures FoundIn(es).Some? ==> FoundIn(es).value.Coded? && AsCodedIn(es) == Some(FoundIn(es).value.code)
    ensures FoundIn(es).Some? ==> FoundIn(es).value in AllNodes(es)
  {
    if es != [] {
      FoundIsReported(es[0]);
      FoundInIsReported(es[1..]);
    }
  }

  /** A CodedError with no CodedError anywhere beneath it. */
  ghost predicate Innermost(c: Err) {
    c.Coded? && forall n | n in Nodes(c.err) :: !n.Coded?
  }

  lemma {:induction false} FirstCodeNone(nodes: seq<Err>)
    ensures FirstCode(nodes).None? <==> forall n | n in nodes :: !n.Coded?
  {
    if nodes != [] {
      FirstCodeNone(nodes[1..]);
      assert nodes == [nodes[0]] + nodes[1..];
    }
  }

  lemma NothingCodedBeneath(e: Err)
    ensures AsCoded(e).None? <==> forall n | n in Nodes(e) :: !n.Coded?
  {
    AsCodedIsFirst(e);
    FirstCodeNone(Nodes(e));
  }

  /** "The innermost CodedError wins": the error reported for `e` is an innermost one, if there is any. */
  ghost predicate InnermostWins(e: Err) {
    Found(e).Some? ==> Innermost(Found(e).value)
  }

  /** For every error: the rule holds iff the CodedError found first is not itself wrapped around another. */
  lemma InnermostRuleHoldsIff(e: Err)
    ensures InnermostWins(e) <==>
            Found(e).None? || (Found(e).value.Coded? && AsCoded(Found(e).value.err).None?)
  {
    FoundIsReported(e);
    if Found(e).Some? {
      NothingCodedBeneath(Found(e).value.err);
    }
  }

  /** WithCode keeps the rule exactly when the error it is given carries no code anywhere. */
  lemma WithCodeKeepsRuleIff(code: Code, e: Err)
    ensures InnermostWins(WithCode(code, Some(e)).value) <==> AsCoded(e).None?
    ensures FromError(WithCode(code, Some(e))) == code
  {
    NothingCodedBeneath(e);
  }

  /** Whenever an error carries a code, some CodedError in it is innermost; so the rule names something. */
  lemma {:induction false} InnermostExists(e: Err) returns (c: Err)
    requires AsCoded(e).Some?
    ensures c in Nodes(e) && Innermost(c)
  {
    match e
    case Coded(_, err) =>
      NothingCodedBeneath(err);
      if AsCoded(err).None? {
        c := e;
      } else {
        c := InnermostExists(err);
      }
    case Wrapf(_, err, _) => c := InnermostExists(err);
    case Join(_, _) =>
      if AsCoded(e.first).Some? {
        c := InnermostExists(e.first);
      } else {
        c := InnermostExistsIn(e.rest);
      }
  }

  lemma {:induction false} InnermostExistsIn(es: seq<Err>) returns (c: Err)
    requires AsCodedIn(es).Some?
    ensures c in AllNodes(es) && Innermost(c)
  {
    if AsCoded(es[0]).Some? {
      c := InnermostExists(es[0]);
    } else {
      c := InnermostExistsIn(es[1..]);
    }
  }

  /** The rule fails wherever an error that carries a code is coded again, whatever stands between. */
  lemma InnermostRuleFails(outer: Code, e: Err) returns (c: Err)
    requires AsCoded(e).Some?
    ensures FromError(Some(Coded(outer, e))) == outer
    ensures c in Nodes(e) && Innermost(c) && !InnermostWins(Coded(outer, e))
  {
    c := InnermostExists(e);
    WithCodeKeepsRuleIff(outer, e);
  }

  /** For example a registry failure under a join, coded again as a chart that does not load. */
  lemma InnermostRuleFailsForExample()
    ensures var e := Coded(ChartLoad, Join(Coded(Repo, Msg("no such chart")), []));
            FromError(Some(e)) == ChartLoad && Innermost(Coded(Repo, Msg("no such chart"))) && !InnermostWins(e)
  {
    var c := InnermostRuleFails(ChartLoad, Join(Coded(Repo, Msg("no such chart")), []));
    NothingCodedBeneath(Msg("no such chart"));
  }

  // ---- Classification of action failures ----------------------------------

  const UNREACHABLE := "kubernetes cluster unreachable"

  /**
   strings.ToLower, rune by rune, as far as an ASCII phrase can tell: besides A to Z, only the Kelvin
   sign and the dotted capital I have ASCII lower-case forms.
   */
  function LowerChar(c: char): char {
    if 'A' <= c <= 'Z' then c - 'A' + 'a'
    else if c == '\U{212A}' then 'k'
    else if c == '\U{0130}' then 'i'
    else c
  }

  function Lower(s: string): (l: string)
    ensures |l| == |s|
  {
    seq(|s|, i requires 0 <= i < |s| => LowerChar(s[i]))
  }

  ghost predicate OccursAt(s: string, sub: string, i: nat) {
    i + |sub| <= |s| && s[i..i + |sub|] == sub
  }

  /** strings.Contains. */
  ghost predicate Contains(s: string, sub: string) {
    exists i: nat :: OccursAt(s, sub, i)
  }

  ghost predicate SaysUnreachable(e: Err) {
    Contains(Lower(Text(e)), UNREACHABLE)
  }

  /** The same letter in either case, or the same character. */
  ghost predicate SameLetter(c: char, d: char) {
    c == d || exists k: int :: LetterPair(c, d, k) || LetterPair(d, c, k)
  }

  predicate LetterPair(lower: char, upper: char, k: int) {
    0 <= k < 26 && lower as int == 'a' as int + k && upper as int == 'A' as int + k
  }

  ghost predicate EqualFold(s: string, t: string) {
    |s| == |t| && forall i :: 0 <= i < |s| ==> SameLetter(s[i], t[i])
  }

  lemma EqualFoldLowers(s: string, t: string)
    requires EqualFold(s, t)
    ensures Lower(s) == Lower(t)
  {
    forall i | 0 <= i < |s| ensures Lower(s)[i] == Lower(t)[i] {
      assert SameLetter(s[i], t[i]);
    }
  }

  /** Lower case letters, and everything ToLower leaves alone, stay; capitals become theirs; nothing else changes. */
  lemma LowerCharIs(c: char)
    ensures 'a' <= c <= 'z' ==> LowerChar(c) == c
    ensures 'A' <= c <= 'Z' ==> 'a' <= LowerChar(c) <= 'z' && SameLetter(LowerChar(c), c)
    ensures c as int < 128 && !('A' <= c <= 'Z') ==> LowerChar(c) == c
  {
    if 'A' <= c <= 'Z' {
      assert LetterPair(LowerChar(c), c, c as int - 'A' as int);
    }
  }

  /** The phrase is recognised in any capitalisation, wherever it stands in the text. */
  lemma PhraseInAnyCase(pre: string, phrase: string, post: string, e: Err)
    requires EqualFold(phrase, UNREACHABLE) && Text(e) == pre + phrase + post
    ensures SaysUnreachable(e)
  {
    EqualFoldLowers(phrase, UNREACHABLE);
    UnreachableIsLower();
    assert OccursAt(Lower(phrase), UNREACHABLE, 0);
    ContainsInMiddle(pre, phrase, post, UNREACHABLE);
  }

  lemma UnreachableIsLower()
    ensures Lower(UNREACHABLE) == UNREACHABLE
  {
    assert forall i :: 0 <= i < |UNREACHABLE| ==> LowerChar(UNREACHABLE[i]) == UNREACHABLE[i];
  }

  /** As the SDK spells it. */
  lemma SdkPhraseIsRecognised(e: Err, post: string)
    requires Text(e) == "Kubernetes cluster unreachable" + post
    ensures SaysUnreachable(e)
  {
    var phrase := "Kubernetes cluster unreachable";
    assert phrase[1..] == UNREACHABLE[1..];
    assert LetterPair(UNREACHABLE[0], phrase[0], 10);
    assert forall i :: 1 <= i < |phrase| ==>
             phrase[i] == phrase[1..][i - 1] && UNREACHABLE[i] == UNREACHABLE[1..][i - 1];
    PhraseInAnyCase("", phrase, post, e);
  }

  /** Two errors whose texts differ in case only are classified alike, their sentinels being alike. */
  lemma CaseDoesNotMatter(e: Err, f: Err)
    requires EqualFold(Text(e), Text(f))
    requires IsCancellation(e) == IsCancellation(f) && Is(e, ReleaseNotFound) == Is(f, ReleaseNotFound)
    ensures Class(e) == Class(f)
  {
    EqualFoldLowers(Text(e), Text(f));
  }

  /** The dedicated code of a failure, if it has one, in order of precedence. */
  ghost function Class(e: Err): Option<Code> {
    if IsCancellation(e) then Some(Cancelled)
    else if Is(e, ReleaseNotFound) then Some(NotFound)
    else if SaysUnreachable(e) then Some(Kube)
    else None
  }

  ghost function WrapActionError(e: Option<Err>, fallback: Code): Option<Err> {
    if e.None? then None
    else if IsCancellation(e.value) then WithCode(Cancelled, e)
    else if Is(e.value, ReleaseNotFound) then WithCode(NotFound, e)
    else if SaysUnreachable(e.value) then WithCode(Kube, e)
    else WithCode(fallback, e)
  }

  /** One layer of context added on the way out: a code, or a message around the error. */
  datatype Layer = CodeLayer(code: Code) | TextLayer(pre: string, post: string)

  /** `e` under a stack of layers, outermost first. */
  function Under(layers: seq<Layer>, e: Err): Err {
    if layers == [] then e
    else
      var inner := Under(layers[1..], e);
      match layers[0]
      case CodeLayer(code) => Coded(code, inner)
      case TextLayer(pre, post) => Wrapf(pre, inner, post)
  }

  lemma {:induction false} SentinelsSurvive(layers: seq<Layer>, e: Err, target: Err)
    requires target.Canceled? || target.DeadlineExceeded? || target.ReleaseNotFound?
    ensures Is(Under(layers, e), target) <==> Is(e, target)
  {
    if layers != [] {
      SentinelsSurvive(layers[1..], e, target);
    }
  }

  lemma ContainsInMiddle(pre: string, s: string, post: string, sub: string)
    requires Contains(Lower(s), sub)
    ensures Contains(Lower(pre + s + post), sub)
  {
    var i: nat :| OccursAt(Lower(s), sub, i);
    var whole := Lower(pre + s + post);
    assert whole[|pre| + i..|pre| + i + |sub|] == Lower(s)[i..i + |sub|];
    assert OccursAt(whole, sub, |pre| + i);
  }

  lemma {:induction false} PhraseSurvives(layers: seq<Layer>, e: Err)
    requires SaysUnreachable(e)
    ensures SaysUnreachable(Under(layers, e))
  {
    if layers != [] {
      PhraseSurvives(layers[1..], e);
      var inner := Under(layers[1..], e);
      if layers[0].TextLayer? {
        ContainsInMiddle(layers[0].pre, Text(inner), layers[0].post, UNREACHABLE);
      }
    }
  }

  /**
   Cancellation, not-found and an unreachable cluster keep their class through any wrapping; wrapping an
   error of no class can at most make its text name an unreachable cluster.
   */
  lemma ClassSurvives(layers: seq<Layer>, e: Err)
    ensures Class(e).Some? ==> Class(Under(layers, e)) == Class(e)
    ensures Class(e).None? ==> Class(Under(layers, e)).None? || Class(Under(layers, e)) == Some(Kube)
  {
    SentinelsSurvive(layers, e, Canceled);
    SentinelsSurvive(layers, e, DeadlineExceeded);
    SentinelsSurvive(layers, e, ReleaseNotFound);
    if SaysUnreachable(e) {
      PhraseSurvives(layers, e);
    }
  }

  /** The code a caller sees for an action failure, however it was wrapped on the way, and its text. */
  lemma WrapActionErrorCode(layers: seq<Layer>, e: Err, fallback: Code)
    requires Class(e).Some?
    ensures FromError(WrapActionError(Some(Under(layers, e)), fallback)) == Class(e).value
    ensures Text(WrapActionError(Some(Under(layers, e)), fallback).value) == Text(Under(layers, e))
  {
    ClassSurvives(layers, e);
    WrapActionErrorIs(Under(layers, e), fallback);
  }

  lemma ClassOfCoded(code: Code, e: Err)
    ensures Class(Coded(code, e)) == Class(e)
  {
  }

  lemma WrapAddsOneCode(e: Err, fallback: Code)
    ensures WrapActionError(Some(e), fallback) ==
            Some(Coded(if Class(e).Some? then Class(e).value else fallback, e))
  {
  }

  /** The dedicated code if there is one, else the fallback; the text and the class stay. */
  lemma WrapActionErrorIs(e: Err, fallback: Code)
    ensures var w := WrapActionError(Some(e), fallback);
            && w.Some?
            && FromError(w) == (if Class(e).Some? then Class(e).value else fallback)
            && Text(w.value) == Text(e)
            && Class(w.value) == Class(e)
  {
    WrapAddsOneCode(e, fallback);
    ClassOfCoded(if Class(e).Some? then Class(e).value else fallback, e);
  }

  /** The precedence of the codes, read off the pre-order listing and the text. */
  lemma WrapActionErrorPrecedence(e: Err, fallback: Code)
    ensures var code := FromError(WrapActionError(Some(e), fallback));
            if Canceled in Nodes(e) || DeadlineExceeded in Nodes(e) then code == Cancelled
            else if ReleaseNotFound in Nodes(e) then code == NotFound
            else if Contains(Lower(Text(e)), UNREACHABLE) then code == Kube
            else code == fallback
  {
    WrapAddsOneCode(e, fallback);
    IsFindsNodes(e, Canceled);
    IsFindsNodes(e, DeadlineExceeded);
    IsFindsNodes(e, ReleaseNotFound);
  }

  /** Classifying twice is classifying once with the outer fallback; a nil error stays nil. */
  lemma WrapActionErrorIdempotent(e: Option<Err>, f: Code, g: Code)
    ensures FromError(WrapActionError(WrapActionError(e, f), g)) == FromError(WrapActionError(e, g))
    ensures e.None? ==> WrapActionError(e, f).None?
  {
    if e.Some? {
      WrapActionErrorIs(e.value, f);
      WrapActionErrorIs(e.value, g);
      WrapActionErrorIs(WrapActionError(e, f).value, g);
    }
  }

  /** Message wraps alone never change the code at the boundary. */
  lemma {:induction false} TextLayersKeepCode(layers: seq<Layer>, e: Err)
    requires forall i: nat | i < |layers| :: layers[i].TextLayer?
    ensures FromError(Some(Under(layers, e))) == FromError(Some(e))
  {
    if layers != [] {
      TextLayersKeepCode(layers[1..], e);
    }
  }
}
