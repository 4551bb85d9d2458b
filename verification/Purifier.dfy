/** The response purifier: four regular-expression substitutions over the decoded body.  Every pattern is
    a literal or an alternation of literals, so `re.sub` is a leftmost, non-overlapping scan. */
module Purifier {

  /** One (pattern, replacement) pair; the pattern is an alternation, tried in order. */
  datatype Rule = Rule(phrases: seq<string>, replacement: string)

  const BUY_ADVICE := "建議買入"
  const BUY_POINT := "買入點"
  const FOLLOW := "跟隨法人方向"
  const SURE_WIN := "必賺"
  const STEADY := "穩定獲利"

  const RULE_ADVICE := Rule([BUY_ADVICE], "模型分析強度為 85%")
  const RULE_POINT := Rule([BUY_POINT], "信號觸發區")
  const RULE_FOLLOW := Rule([FOLLOW], "法人部位特徵符合")
  const RULE_PROFIT := Rule([SURE_WIN, STEADY], "歷史回測統計結果")

  const RULES := [RULE_ADVICE, RULE_POINT, RULE_FOLLOW, RULE_PROFIT]

  ghost predicate WellFormed(rule: Rule) {
    forall k :: 0 <= k < |rule.phrases| ==> rule.phrases[k] != ""
  }

  /** The length of the first alternative that matches at the start of `t`, or 0. */
  function MatchLength(phrases: seq<string>, t: string): (n: nat)
    ensures n <= |t|
    ensures n > 0 ==> exists k :: 0 <= k < |phrases| && phrases[k] <= t && |phrases[k]| == n
    ensures n == 0 ==> forall k :: 0 <= k < |phrases| && phrases[k] != "" ==> !(phrases[k] <= t)
  {
    if phrases == [] then 0
    else if phrases[0] != "" && phrases[0] <= t then |phrases[0]|
    else MatchLength(phrases[1..], t)
  }

  /** `pattern.sub(replacement, t)` */
  function Sub(rule: Rule, t: string): string
    decreases |t|
  {
    if t == "" then ""
    else
      var n := MatchLength(rule.phrases, t);
      if n > 0 then rule.replacement + Sub(rule, t[n..]) else [t[0]] + Sub(rule, t[1..])
  }

  function PurifyWith(rules: seq<Rule>, t: string): string {
    if rules == [] then t else Sub(rules[|rules| - 1], PurifyWith(rules[..|rules| - 1], t))
  }

  /** `_purify`: the loop over the table. */
  method Purify(t: string) returns (text: string)
    ensures text == PurifyWith(RULES, t)
  {
    text := t;
    for i := 0 to |RULES|
      invariant text == PurifyWith(RULES[..i], t)
    {
      assert RULES[..i + 1][..i] == RULES[..i];
      text := Sub(RULES[i], text);
    }
    assert RULES[..|RULES|] == RULES;
  }

  // ----- occurrences

  ghost predicate Free(q: string, t: string) {
    forall i :: 0 <= i <= |t| ==> !(q <= t[i..])
  }

  /** However `q` is laid over the replacement, overlapping it somewhere, some overlapping character
      differs: no occurrence of `q` can touch an inserted replacement. */
  ghost predicate Repels(replacement: string, q: string) {
    forall d :: -|q| < d < |replacement| ==> Mismatch(replacement, q, d)
  }

  ghost predicate Mismatch(replacement: string, q: string, d: int) {
    exists i :: 0 <= i < |q| && 0 <= d + i < |replacement| && q[i] != replacement[d + i]
  }

  /** They share no character. */
  ghost predicate Foreign(q: string, replacement: string) {
    forall i, j :: 0 <= i < |q| && 0 <= j < |replacement| ==> q[i] != replacement[j]
  }

  lemma ForeignCharactersRepel(replacement: string, q: string)
    requires q != "" && replacement != "" && Foreign(q, replacement)
    ensures Repels(replacement, q)
  {
    forall d | -|q| < d < |replacement| ensures Mismatch(replacement, q, d) {
      var i := if d < 0 then -d else 0;
      assert q[i] != replacement[d + i];
    }
  }

  /** A replacement does not start with, and cannot be continued to, the tail of a repelled phrase. */
  lemma RepelledHead(replacement: string, q: string, k: nat, rest: string)
    requires Repels(replacement, q) && replacement != "" && k < |q|
    ensures !(q[k..] <= replacement + rest)
  {
    var d: int := 0 - k;
    assert Mismatch(replacement, q, d);
    var i :| 0 <= i < |q| && 0 <= d + i < |replacement| && q[i] != replacement[d + i];
    var out := replacement + rest;
    assert q[k..][i - k] == q[i] && out[i - k] == replacement[i - k];
  }

  /** What the output starts with, the input started with: the tail of a repelled phrase cannot be
      completed by a replacement. */
  lemma {:induction false} OutputPrefixIsInputPrefix(rule: Rule, q: string, k: nat, t: string)
    requires Repels(rule.replacement, q) && rule.replacement != ""
    requires k < |q| && q[k..] <= Sub(rule, t)
    ensures q[k..] <= t
    decreases |t|
  {
    if t != "" {
      var n := MatchLength(rule.phrases, t);
      if n > 0 {
        RepelledHead(rule.replacement, q, k, Sub(rule, t[n..]));
      } else {
        assert q[k..][0] == Sub(rule, t)[0] == t[0];
        if k + 1 < |q| {
          assert q[k + 1..] == q[k..][1..] <= Sub(rule, t)[1..] == Sub(rule, t[1..]);
          OutputPrefixIsInputPrefix(rule, q, k + 1, t[1..]);
          assert q[k..] == [q[k]] + q[k + 1..] && t == [t[0]] + t[1..];
        }
      }
    }
  }

  /** A pass removes its own phrases and brings back none that were gone. */
  lemma {:induction false} PassFrees(rule: Rule, q: string, t: string)
    requires WellFormed(rule) && rule.replacement != "" && q != ""
    requires Repels(rule.replacement, q)
    requires q in rule.phrases || Free(q, t)
    ensures Free(q, Sub(rule, t))
    decreases |t|
  {
    var out := Sub(rule, t);
    if t != "" {
      var n := MatchLength(rule.phrases, t);
      var step, rest := if n > 0 then |rule.replacement| else 1, if n > 0 then t[n..] else t[1..];
      FreeSuffix(q, t, if n > 0 then n else 1);
      PassFrees(rule, q, rest);
      assert out[step..] == Sub(rule, rest);
      forall i | 0 <= i <= |out| ensures !(q <= out[i..]) {
        if i >= step {
          assert out[i..] == Sub(rule, rest)[i - step..];
        } else if n > 0 {
          assert Mismatch(rule.replacement, q, i);
          var j :| 0 <= j < |q| && 0 <= i + j < |rule.replacement| && q[j] != rule.replacement[i + j];
          assert out[i + j] == rule.replacement[i + j];
          assert j < |out[i..]| && out[i..][j] != q[j];
        } else {
          assert out[0..] == out && q[0..] == q && t[0..] == t;
          if q <= out { OutputPrefixIsInputPrefix(rule, q, 0, t); }
        }
      }
    }
  }

  lemma FreeSuffix(q: string, t: string, n: nat)
    requires n <= |t|
    ensures Free(q, t) ==> Free(q, t[n..])
  {
    forall i | Free(q, t) && 0 <= i <= |t| - n ensures !(q <= t[n..][i..]) {
      assert t[n..][i..] == t[n + i..];
    }
  }

  /** Text without the pattern's phrases passes through unchanged. */
  lemma {:induction false} FreeTextIsUnchanged(rule: Rule, t: string)
    requires forall k :: 0 <= k < |rule.phrases| ==> rule.phrases[k] != "" && Free(rule.phrases[k], t)
    ensures Sub(rule, t) == t
    decreases |t|
  {
    if t != "" {
      assert t[0..] == t;
      forall k | 0 <= k < |rule.phrases| ensures Free(rule.phrases[k], t[1..]) {
        FreeSuffix(rule.phrases[k], t, 1);
      }
      FreeTextIsUnchanged(rule, t[1..]);
    }
  }

  // ----- the table

  ghost predicate Clean(t: string) {
    Free(BUY_ADVICE, t) && Free(BUY_POINT, t) && Free(FOLLOW, t) && Free(SURE_WIN, t) && Free(STEADY, t)
  }

  /** The one replacement that shares characters with a forbidden phrase: 法人 opens the replacement of
      跟隨法人方向 itself. */
  lemma FollowRepelled()
    ensures Repels(RULE_FOLLOW.replacement, FOLLOW)
  {
    var rep := RULE_FOLLOW.replacement;
    forall d | -|FOLLOW| < d < |rep| ensures Mismatch(rep, FOLLOW, d) {
      var i := if d >= 0 then 0 else if d == -1 then 1 else if d >= -4 then 4 else 5;
      assert FOLLOW[i] != rep[d + i];
    }
  }

  lemma ForeignPassFrees(rule: Rule, q: string, t: string)
    requires WellFormed(rule) && rule.replacement != "" && q != ""
    requires Foreign(q, rule.replacement)
    requires q in rule.phrases || Free(q, t)
    ensures Free(q, Sub(rule, t))
  {
    ForeignCharactersRepel(rule.replacement, q);
    PassFrees(rule, q, t);
  }

  lemma AdviceIsForeign()
    ensures Foreign(BUY_ADVICE, RULE_ADVICE.replacement) && Foreign(BUY_ADVICE, RULE_POINT.replacement)
    ensures Foreign(BUY_ADVICE, RULE_FOLLOW.replacement) && Foreign(BUY_ADVICE, RULE_PROFIT.replacement)
  {
  }

  lemma PointIsForeign()
    ensures Foreign(BUY_POINT, RULE_ADVICE.replacement) && Foreign(BUY_POINT, RULE_POINT.replacement)
    ensures Foreign(BUY_POINT, RULE_FOLLOW.replacement) && Foreign(BUY_POINT, RULE_PROFIT.replacement)
  {
  }

  lemma OthersAreForeign()
    ensures Foreign(FOLLOW, RULE_PROFIT.replacement)
    ensures Foreign(SURE_WIN, RULE_PROFIT.replacement) && Foreign(STEADY, RULE_PROFIT.replacement)
  {
  }

  lemma ProfitPhrasesAreNotReplacements()
    ensures Foreign(SURE_WIN, RULE_ADVICE.replacement) && Foreign(STEADY, RULE_ADVICE.replacement)
    ensures Foreign(SURE_WIN, RULE_POINT.replacement) && Foreign(STEADY, RULE_POINT.replacement)
    ensures Foreign(SURE_WIN, RULE_FOLLOW.replacement) && Foreign(STEADY, RULE_FOLLOW.replacement)
  {
  }

  lemma FollowIsForeign()
    ensures Foreign(FOLLOW, RULE_ADVICE.replacement) && Foreign(FOLLOW, RULE_POINT.replacement)
    ensures Foreign(FOLLOW, RULE_PROFIT.replacement)
  {
  }

  /** `order` lists each of the four rules once. */
  ghost predicate IsOrdering(order: seq<Rule>) {
    multiset(order) == multiset{RULE_ADVICE, RULE_POINT, RULE_FOLLOW, RULE_PROFIT}
  }

  lemma TableIsOrdering()
    ensures IsOrdering(RULES) && Precedes(RULES, RULE_ADVICE, RULE_POINT)
  {
    assert RULES[0] == RULE_ADVICE && RULES[1] == RULE_POINT;
  }

  lemma RuleOf(order: seq<Rule>, k: nat)
    requires IsOrdering(order) && k < |order|
    ensures order[k] == RULE_ADVICE || order[k] == RULE_POINT || order[k] == RULE_FOLLOW || order[k] == RULE_PROFIT
  {
    assert order[k] in multiset(order);
  }

  /** No replacement of the table can touch an occurrence of the phrase. */
  ghost predicate RepelledByAll(q: string) {
    && q != "" && Repels(RULE_ADVICE.replacement, q) && Repels(RULE_POINT.replacement, q)
    && Repels(RULE_FOLLOW.replacement, q) && Repels(RULE_PROFIT.replacement, q)
  }

  lemma ForeignIsRepelled(q: string)
    requires q != "" && Foreign(q, RULE_ADVICE.replacement) && Foreign(q, RULE_POINT.replacement)
    requires Foreign(q, RULE_PROFIT.replacement)
    requires Foreign(q, RULE_FOLLOW.replacement) || Repels(RULE_FOLLOW.replacement, q)
    ensures RepelledByAll(q)
  {
    hide Foreign, Repels;
    ForeignCharactersRepel(RULE_ADVICE.replacement, q);
    ForeignCharactersRepel(RULE_POINT.replacement, q);
    ForeignCharactersRepel(RULE_PROFIT.replacement, q);
    if Foreign(q, RULE_FOLLOW.replacement) { ForeignCharactersRepel(RULE_FOLLOW.replacement, q); }
  }

  lemma PhrasesAreRepelled()
    ensures RepelledByAll(BUY_ADVICE) && RepelledByAll(BUY_POINT) && RepelledByAll(FOLLOW)
    ensures RepelledByAll(SURE_WIN) && RepelledByAll(STEADY)
  {
    AdviceIsForeign();
    PointIsForeign();
    FollowIsForeign();
    OthersAreForeign();
    ProfitPhrasesAreNotReplacements();
    FollowRepelled();
    hide Foreign, Repels, RepelledByAll;
    ForeignIsRepelled(BUY_ADVICE);
    ForeignIsRepelled(BUY_POINT);
    ForeignIsRepelled(FOLLOW);
    ForeignIsRepelled(SURE_WIN);
    ForeignIsRepelled(STEADY);
  }

  /** A phrase is gone after its own pass, whenever that comes, and stays gone. */
  lemma {:induction false} PhraseIsFreed(rules: seq<Rule>, q: string, t: string)
    requires forall k :: 0 <= k < |rules| ==> WellFormed(rules[k]) && rules[k].replacement != ""
                                              && Repels(rules[k].replacement, q)
    requires q != "" && exists k :: 0 <= k < |rules| && q in rules[k].phrases
    ensures Free(q, PurifyWith(rules, t))
  {
    hide Sub, Free, Repels, WellFormed;
    var n := |rules| - 1;
    if q !in rules[n].phrases {
      var k :| 0 <= k < |rules| && q in rules[k].phrases;
      assert q in rules[..n][k].phrases;
      PhraseIsFreed(rules[..n], q, t);
    }
    PassFrees(rules[n], q, PurifyWith(rules[..n], t));
  }

  lemma PhraseIsFreedBy(order: seq<Rule>, rule: Rule, q: string, t: string)
    requires IsOrdering(order) && RepelledByAll(q) && rule in multiset(order) && q in rule.phrases
    ensures Free(q, PurifyWith(order, t))
  {
    RulesAreUnambiguous();
    forall k | 0 <= k < |order| ensures Unambiguous(order[k]) && Repels(order[k].replacement, q) { RuleOf(order, k); }
    var k :| 0 <= k < |order| && order[k] == rule;
    hide Sub, Free, Repels, IsOrdering;
    PhraseIsFreed(order, q, t);
  }

  /** For every text and every order of the table, none of the five phrases occurs anywhere in the purified text,
      across the seams of the replacements included. */
  lemma NoPhraseSurvives(order: seq<Rule>, t: string)
    requires IsOrdering(order)
    ensures Clean(PurifyWith(order, t))
  {
    PhrasesAreRepelled();
    assert RULE_PROFIT.phrases[0] == SURE_WIN && RULE_PROFIT.phrases[1] == STEADY;
    hide Sub, Free, PurifyWith, RepelledByAll;
    PhraseIsFreedBy(order, RULE_ADVICE, BUY_ADVICE, t);
    PhraseIsFreedBy(order, RULE_POINT, BUY_POINT, t);
    PhraseIsFreedBy(order, RULE_FOLLOW, FOLLOW, t);
    PhraseIsFreedBy(order, RULE_PROFIT, SURE_WIN, t);
    PhraseIsFreedBy(order, RULE_PROFIT, STEADY, t);
  }

  lemma {:induction false} FreeTextPasses(rules: seq<Rule>, t: string)
    requires forall k :: 0 <= k < |rules| ==> WellFormed(rules[k]) && forall q :: q in rules[k].phrases ==> Free(q, t)
    ensures PurifyWith(rules, t) == t
  {
    hide Sub, Free;
    if rules != [] {
      var n := |rules| - 1;
      FreeTextPasses(rules[..n], t);
      forall k | 0 <= k < |rules[n].phrases| ensures rules[n].phrases[k] != "" && Free(rules[n].phrases[k], t) {
        assert rules[n].phrases[k] in rules[n].phrases;
      }
      FreeTextIsUnchanged(rules[n], t);
    }
  }

  lemma CleanTextIsUnchanged(order: seq<Rule>, t: string)
    requires IsOrdering(order) && Clean(t)
    ensures PurifyWith(order, t) == t
  {
    RulesAreUnambiguous();
    hide Sub, Free, PurifyWith;
    forall k | 0 <= k < |order|
      ensures Unambiguous(order[k]) && forall q :: q in order[k].phrases ==> Free(q, t)
    {
      RuleOf(order, k);
    }
    FreeTextPasses(order, t);
  }

  /** Purifying twice is purifying once, and a text is unchanged exactly when it has no forbidden phrase. */
  lemma PurifyIsIdempotent(order: seq<Rule>, t: string)
    requires IsOrdering(order)
    ensures PurifyWith(order, PurifyWith(order, t)) == PurifyWith(order, t)
    ensures PurifyWith(order, t) == t <==> Clean(t)
  {
    hide PurifyWith, Clean, IsOrdering;
    NoPhraseSurvives(order, t);
    CleanTextIsUnchanged(order, PurifyWith(order, t));
    if Clean(t) { CleanTextIsUnchanged(order, t); }
  }

  // ----- the order of the table

  /** 建議買入 and 買入點 overlap in this text. */
  const OVERLAP := "建議買入點"

  /** No alternative of the pattern begins with this character. */
  ghost predicate CannotStart(rule: Rule, c: char)
    requires WellFormed(rule)
  {
    forall k :: 0 <= k < |rule.phrases| ==> rule.phrases[k][0] != c
  }

  lemma NoMatchHere(rule: Rule, t: string)
    requires WellFormed(rule) && t != "" && CannotStart(rule, t[0])
    ensures MatchLength(rule.phrases, t) == 0
  {
    assert forall k :: 0 <= k < |rule.phrases| ==> rule.phrases[k][0] != t[0];
  }

  /** Text that cannot start a match is copied. */
  lemma {:induction false} SubCopies(rule: Rule, copied: string, x: string)
    requires WellFormed(rule)
    requires forall i :: 0 <= i < |copied| ==> CannotStart(rule, copied[i])
    ensures Sub(rule, copied + x) == copied + Sub(rule, x)
  {
    hide CannotStart, WellFormed, MatchLength;
    var t := copied + x;
    if copied == "" {
      assert t == x;
    } else {
      assert t[0] == copied[0] && t[1..] == copied[1..] + x;
      NoMatchHere(rule, t);
      SubCopies(rule, copied[1..], x);
      assert copied == [t[0]] + copied[1..];
    }
  }

  /** A single phrase at the start is replaced. */
  lemma SubReplaces(rule: Rule, q: string, x: string)
    requires rule.phrases == [q] && q != ""
    ensures Sub(rule, q + x) == rule.replacement + Sub(rule, x)
  {
    assert (q + x)[|q|..] == x;
  }

  /** A single phrase that is not at the start leaves the first character alone. */
  lemma SubKeepsFirst(rule: Rule, q: string, t: string)
    requires rule.phrases == [q] && q != "" && t != "" && !(q <= t)
    ensures Sub(rule, t) == [t[0]] + Sub(rule, t[1..])
  {
  }

  lemma FreeAfter(q: string, head: string, x: string)
    requires q != "" && !(q <= head + x)
    requires forall i :: 0 < i < |head| ==> head[i] != q[0]
    ensures Free(q, head + x) <==> Free(q, x)
  {
    var t := head + x;
    forall i | 0 <= i <= |x| ensures x[i..] == t[|head| + i..] {
    }
    if Free(q, x) {
      forall i | 0 <= i <= |t| ensures !(q <= t[i..]) {
        if i == 0 {
          assert t[0..] == t;
        } else if i < |head| {
          assert t[i..][0] == head[i];
        } else {
          assert t[i..] == x[i - |head|..];
        }
      }
    }
  }

  function AdviceFirst(t: string): string { Sub(RULE_POINT, Sub(RULE_ADVICE, t)) }
  function PointFirst(t: string): string { Sub(RULE_ADVICE, Sub(RULE_POINT, t)) }

  lemma AdviceAtOverlap(y: string)
    ensures var r := AdviceFirst(BUY_ADVICE + ("點" + y)); r != "" && r[0] == '模'
  {
    hide Sub;
    var rep := RULE_ADVICE.replacement;
    SubReplaces(RULE_ADVICE, BUY_ADVICE, "點" + y);
    SubCopies(RULE_POINT, rep, Sub(RULE_ADVICE, "點" + y));
    assert rep[0] == '模';
  }

  lemma PointAtOverlap(y: string)
    ensures var r := PointFirst("建議" + (BUY_POINT + y)); r != "" && r[0] == '建'
  {
    hide Sub;
    SubCopies(RULE_POINT, "建議", BUY_POINT + y);
    SubReplaces(RULE_POINT, BUY_POINT, y);
    var u := "建議" + (RULE_POINT.replacement + Sub(RULE_POINT, y));
    assert u[2] == '信' && BUY_ADVICE[2] == '買';
    SubKeepsFirst(RULE_ADVICE, BUY_ADVICE, u);
  }

  lemma AtOverlap(t: string)
    requires OVERLAP <= t
    ensures AdviceFirst(t) != PointFirst(t)
    ensures !Free(OVERLAP, t)
  {
    var y := t[5..];
    assert t[0..] == t && t == BUY_ADVICE + ("點" + y) == "建議" + (BUY_POINT + y);
    hide AdviceFirst, PointFirst;
    AdviceAtOverlap(y);
    PointAtOverlap(y);
  }

  lemma AtAdvice(x: string)
    requires !("點" <= x)
    ensures AdviceFirst(BUY_ADVICE + x) == RULE_ADVICE.replacement + AdviceFirst(x)
    ensures PointFirst(BUY_ADVICE + x) == RULE_ADVICE.replacement + PointFirst(x)
  {
    hide Sub;
    SubReplaces(RULE_ADVICE, BUY_ADVICE, x);
    SubCopies(RULE_POINT, RULE_ADVICE.replacement, Sub(RULE_ADVICE, x));
    PointSkipsAdvice(x);
    SubReplaces(RULE_ADVICE, BUY_ADVICE, Sub(RULE_POINT, x));
  }

  lemma PointSkipsAdvice(x: string)
    requires !("點" <= x)
    ensures Sub(RULE_POINT, BUY_ADVICE + x) == BUY_ADVICE + Sub(RULE_POINT, x)
  {
    hide Sub;
    var tail := "買入" + x;
    assert BUY_ADVICE + x == "建議" + tail;
    SubCopies(RULE_POINT, "建議", tail);
    assert BUY_POINT[2] == '點' && (x != "" ==> tail[2] == x[0] && x[0] != '點');
    SubKeepsFirst(RULE_POINT, BUY_POINT, tail);
    assert tail[1..] == "入" + x;
    SubCopies(RULE_POINT, "入", x);
    assert "建議" + (['買'] + ("入" + Sub(RULE_POINT, x))) == BUY_ADVICE + Sub(RULE_POINT, x);
  }

  lemma AtPoint(x: string)
    ensures AdviceFirst(BUY_POINT + x) == RULE_POINT.replacement + AdviceFirst(x)
    ensures PointFirst(BUY_POINT + x) == RULE_POINT.replacement + PointFirst(x)
  {
    hide Sub;
    assert forall i :: 0 <= i < |BUY_POINT| ==> CannotStart(RULE_ADVICE, BUY_POINT[i]);
    assert forall i :: 0 <= i < |RULE_POINT.replacement| ==> CannotStart(RULE_ADVICE, RULE_POINT.replacement[i]);
    hide CannotStart;
    SubCopies(RULE_ADVICE, BUY_POINT, x);
    SubReplaces(RULE_POINT, BUY_POINT, Sub(RULE_ADVICE, x));
    SubReplaces(RULE_POINT, BUY_POINT, x);
    SubCopies(RULE_ADVICE, RULE_POINT.replacement, Sub(RULE_POINT, x));
  }

  lemma AtNeither(t: string)
    requires t != "" && !(BUY_ADVICE <= t) && !(BUY_POINT <= t)
    ensures AdviceFirst(t) == [t[0]] + AdviceFirst(t[1..])
    ensures PointFirst(t) == [t[0]] + PointFirst(t[1..])
  {
    var a, p := Sub(RULE_ADVICE, t), Sub(RULE_POINT, t);
    SubKeepsFirst(RULE_ADVICE, BUY_ADVICE, t);
    SubKeepsFirst(RULE_POINT, BUY_POINT, t);
    AdviceIsForeign();
    PointIsForeign();
    hide Sub, Foreign, Repels;
    ForeignCharactersRepel(RULE_ADVICE.replacement, BUY_POINT);
    ForeignCharactersRepel(RULE_POINT.replacement, BUY_ADVICE);
    assert BUY_POINT[0..] == BUY_POINT && BUY_ADVICE[0..] == BUY_ADVICE;
    if BUY_POINT <= a { OutputPrefixIsInputPrefix(RULE_ADVICE, BUY_POINT, 0, t); }
    if BUY_ADVICE <= p { OutputPrefixIsInputPrefix(RULE_POINT, BUY_ADVICE, 0, t); }
    SubKeepsFirst(RULE_POINT, BUY_POINT, a);
    SubKeepsFirst(RULE_ADVICE, BUY_ADVICE, p);
  }

  lemma SameHead(head: string, x: string, y: string)
    ensures head + x == head + y <==> x == y
  {
    assert (head + x)[|head|..] == x && (head + y)[|head|..] == y;
  }

  /** Applying the first two rules in the other order matters exactly on the texts that contain 建議買入點. */
  lemma {:induction false} SwapMattersIffOverlap(t: string)
    ensures AdviceFirst(t) == PointFirst(t) <==> Free(OVERLAP, t)
    decreases |t|
  {
    if t == "" {
      assert Free(OVERLAP, "") && AdviceFirst("") == PointFirst("");
      return;
    }
    hide AdviceFirst, PointFirst, Free;
    if OVERLAP <= t {
      AtOverlap(t);
    } else if BUY_ADVICE <= t {
      var x := t[4..];
      assert t == BUY_ADVICE + x;
      assert "點" <= x ==> OVERLAP <= t;
      AtAdvice(x);
      SameHead(RULE_ADVICE.replacement, AdviceFirst(x), PointFirst(x));
      FreeAfter(OVERLAP, BUY_ADVICE, x);
      SwapMattersIffOverlap(x);
    } else if BUY_POINT <= t {
      var x := t[3..];
      assert t == BUY_POINT + x;
      AtPoint(x);
      SameHead(RULE_POINT.replacement, AdviceFirst(x), PointFirst(x));
      FreeAfter(OVERLAP, BUY_POINT, x);
      SwapMattersIffOverlap(x);
    } else {
      var x := t[1..];
      assert t == [t[0]] + x;
      AtNeither(t);
      SameHead([t[0]], AdviceFirst(x), PointFirst(x));
      FreeAfter(OVERLAP, [t[0]], x);
      SwapMattersIffOverlap(x);
    }
  }

  // ----- any order of the four rules

  /** The rules share no character that matters: neither pattern can match inside, or across the edge of, the
      other's phrases and replacements. */
  ghost predicate Apart(a: Rule, b: Rule) {
    && (forall p, q :: p in a.phrases && q in b.phrases ==> Foreign(p, q))
    && (forall p :: p in a.phrases ==> Foreign(p, b.replacement))
    && (forall q :: q in b.phrases ==> Foreign(q, a.replacement))
  }

  /** Only one alternative can match at a place. */
  ghost predicate Unambiguous(rule: Rule) {
    && WellFormed(rule) && rule.replacement != ""
    && (forall p, q :: p in rule.phrases && q in rule.phrases && p != q ==> !(p <= q))
  }

  lemma PhraseMatches(rule: Rule, q: string, x: string)
    requires Unambiguous(rule) && q in rule.phrases
    ensures MatchLength(rule.phrases, q + x) == |q| && Sub(rule, q + x) == rule.replacement + Sub(rule, x)
  {
    var t, n := q + x, MatchLength(rule.phrases, q + x);
    assert q <= t && q != "";
    var k :| 0 <= k < |rule.phrases| && rule.phrases[k] <= t && |rule.phrases[k]| == n;
    var p := rule.phrases[k];
    assert p in rule.phrases;
    assert p == t[..|p|] && q == t[..|q|];
    assert if |p| <= |q| then p <= q else q <= p;
    assert t[|q|..] == x;
  }

  lemma CopiesForeign(rule: Rule, copied: string, x: string)
    requires WellFormed(rule) && forall q :: q in rule.phrases ==> Foreign(q, copied)
    ensures Sub(rule, copied + x) == copied + Sub(rule, x)
  {
    forall i | 0 <= i < |copied| ensures CannotStart(rule, copied[i]) {
      forall k | 0 <= k < |rule.phrases| ensures rule.phrases[k][0] != copied[i] {
        assert rule.phrases[k] in rule.phrases;
      }
    }
    hide Sub;
    SubCopies(rule, copied, x);
  }

  /** A pass makes no new match at the front for a rule it is apart from. */
  lemma NoNewMatch(a: Rule, b: Rule, t: string)
    requires Unambiguous(a) && Unambiguous(b) && Apart(a, b) && MatchLength(b.phrases, t) == 0
    ensures MatchLength(b.phrases, Sub(a, t)) == 0
  {
    var out := Sub(a, t);
    if MatchLength(b.phrases, out) > 0 {
      var k :| 0 <= k < |b.phrases| && b.phrases[k] <= out;
      var q := b.phrases[k];
      assert q in b.phrases && q != "" && Foreign(q, a.replacement);
      ForeignCharactersRepel(a.replacement, q);
      assert q[0..] == q;
      OutputPrefixIsInputPrefix(a, q, 0, t);
    }
  }

  /** Where `a` matches, both orders write its replacement and go on behind the match. */
  lemma FrontIsReplaced(a: Rule, b: Rule, q: string, x: string)
    requires Unambiguous(a) && Unambiguous(b) && Apart(a, b) && q in a.phrases
    ensures Sub(b, Sub(a, q + x)) == a.replacement + Sub(b, Sub(a, x))
    ensures Sub(a, Sub(b, q + x)) == a.replacement + Sub(a, Sub(b, x))
  {
    assert forall p :: p in b.phrases ==> Foreign(p, q) by {
      forall p | p in b.phrases ensures Foreign(p, q) { assert Foreign(q, p); }
    }
    hide Sub, MatchLength, Foreign;
    PhraseMatches(a, q, x);
    CopiesForeign(b, a.replacement, Sub(a, x));
    CopiesForeign(b, q, x);
    PhraseMatches(a, q, Sub(b, x));
  }

  lemma MatchedPhrase(rule: Rule, t: string) returns (q: string)
    requires MatchLength(rule.phrases, t) > 0
    ensures q in rule.phrases && q <= t && |q| == MatchLength(rule.phrases, t) && t == q + t[|q|..]
  {
    var k :| 0 <= k < |rule.phrases| && rule.phrases[k] <= t && |rule.phrases[k]| == MatchLength(rule.phrases, t);
    q := rule.phrases[k];
  }

  lemma FrontIsCopied(rule: Rule, t: string)
    requires t != "" && MatchLength(rule.phrases, t) == 0
    ensures Sub(rule, t) == [t[0]] + Sub(rule, t[1..])
  {
  }

  /** Two rules that are apart can be applied in either order. */
  lemma {:induction false} PassesCommute(a: Rule, b: Rule, t: string)
    requires Unambiguous(a) && Unambiguous(b) && Apart(a, b)
    ensures Sub(a, Sub(b, t)) == Sub(b, Sub(a, t))
    decreases |t|
  {
    if t == "" {
    } else if MatchLength(a.phrases, t) > 0 {
      var q := MatchedPhrase(a, t);
      hide Sub, MatchLength, Foreign;
      FrontIsReplaced(a, b, q, t[|q|..]);
      PassesCommute(a, b, t[|q|..]);
    } else if MatchLength(b.phrases, t) > 0 {
      var q := MatchedPhrase(b, t);
      ApartIsSymmetric(a, b);
      hide Sub, MatchLength, Apart;
      FrontIsReplaced(b, a, q, t[|q|..]);
      PassesCommute(a, b, t[|q|..]);
    } else {
      ApartIsSymmetric(a, b);
      hide Sub, MatchLength, Apart;
      NoNewMatch(a, b, t);
      NoNewMatch(b, a, t);
      FrontIsCopied(a, t);
      FrontIsCopied(b, t);
      FrontIsCopied(b, Sub(a, t));
      FrontIsCopied(a, Sub(b, t));
      PassesCommute(a, b, t[1..]);
    }
  }

  lemma ApartIsSymmetric(a: Rule, b: Rule)
    requires Apart(a, b)
    ensures Apart(b, a)
  {
    forall p, q | p in b.phrases && q in a.phrases ensures Foreign(p, q) { assert Foreign(q, p); }
  }

  /** A pass neither makes nor breaks an occurrence of a text it shares no character with. */
  lemma {:induction false} OccurrencesStay(rule: Rule, q: string, t: string)
    requires WellFormed(rule) && rule.replacement != "" && q != "" && Foreign(q, rule.replacement)
    requires forall p :: p in rule.phrases ==> Foreign(p, q)
    ensures Free(q, Sub(rule, t)) <==> Free(q, t)
  {
    if Free(q, t) { ForeignPassFrees(rule, q, t); }
    if !Free(q, t) {
      var i :| 0 <= i <= |t| && q <= t[i..];
      OccurrenceStays(rule, q, t, i);
    }
  }

  lemma {:induction false} OccurrenceStays(rule: Rule, q: string, t: string, i: nat)
    requires WellFormed(rule) && q != "" && i <= |t| && q <= t[i..]
    requires forall p :: p in rule.phrases ==> Foreign(p, q)
    ensures !Free(q, Sub(rule, t))
    decreases |t|
  {
    var out, n := Sub(rule, t), MatchLength(rule.phrases, t);
    if n > 0 {
      assert out == rule.replacement + Sub(rule, t[n..]);
      var p := MatchedPhrase(rule, t);
      hide Sub, MatchLength, WellFormed;
      assert forall k :: 0 <= k < n ==> t[k] == p[k] && p[k] != q[0];
      assert t[i] == t[i..][0] == q[0];
      assert t[n..][i - n..] == t[i..];
      hide Foreign, Free;
      OccurrenceStays(rule, q, t[n..], i - n);
      FreeSuffix(q, out, |rule.replacement|);
      assert out[|rule.replacement|..] == Sub(rule, t[n..]);
    } else if i > 0 {
      FrontIsCopied(rule, t);
      hide Sub, MatchLength, WellFormed, Foreign, Free;
      assert t[1..][i - 1..] == t[i..];
      OccurrenceStays(rule, q, t[1..], i - 1);
      FreeSuffix(q, out, 1);
      assert out[1..] == Sub(rule, t[1..]);
    } else {
      hide Sub, MatchLength, WellFormed, Foreign;
      assert t[0..] == t && t == q + t[|q|..];
      CopiesForeign(rule, q, t[|q|..]);
      assert out[0..] == out;
    }
  }

  // ----- reordering a table

  lemma {:induction false} PurifyConcat(a: seq<Rule>, b: seq<Rule>, t: string)
    ensures PurifyWith(a + b, t) == PurifyWith(b, PurifyWith(a, t))
  {
    hide Sub;
    if b == [] {
      assert a + b == a;
    } else {
      var n := |b| - 1;
      PurifyConcat(a, b[..n], t);
      assert (a + b)[..|a| + n] == a + b[..n];
    }
  }

  ghost predicate ApartFromAll(rule: Rule, rules: seq<Rule>) {
    Unambiguous(rule) && forall k :: 0 <= k < |rules| ==> Unambiguous(rules[k]) && Apart(rules[k], rule)
  }

  /** A rule apart from those before it may as well come first. */
  lemma {:induction false} MoveToFront(before: seq<Rule>, rule: Rule, after: seq<Rule>, t: string)
    requires ApartFromAll(rule, before)
    ensures PurifyWith(before + [rule] + after, t) == PurifyWith(before + after, Sub(rule, t))
  {
    hide Sub, Unambiguous, Apart;
    PurifyConcat(before + [rule], after, t);
    PurifyConcat(before, after, Sub(rule, t));
    PurifyConcat(before, [rule], t);
    assert [rule][..0] == [];
    assert PurifyWith([rule], PurifyWith(before, t)) == Sub(rule, PurifyWith(before, t));
    CommutesWithAll(before, rule, t);
  }

  lemma {:induction false} CommutesWithAll(rules: seq<Rule>, rule: Rule, t: string)
    requires ApartFromAll(rule, rules)
    ensures Sub(rule, PurifyWith(rules, t)) == PurifyWith(rules, Sub(rule, t))
  {
    hide Sub, Unambiguous, Apart;
    if rules != [] {
      var n := |rules| - 1;
      CommutesWithAll(rules[..n], rule, t);
      PassesCommute(rules[n], rule, PurifyWith(rules[..n], t));
    }
  }

  lemma RulesAreUnambiguous()
    ensures Unambiguous(RULE_ADVICE) && Unambiguous(RULE_POINT) && Unambiguous(RULE_FOLLOW)
    ensures Unambiguous(RULE_PROFIT)
  {
    assert RULE_PROFIT.phrases == [SURE_WIN, STEADY] && SURE_WIN[0] != STEADY[0];
  }

  lemma FollowIsApart()
    ensures Apart(RULE_ADVICE, RULE_FOLLOW) && Apart(RULE_POINT, RULE_FOLLOW)
  {
    assert Foreign(BUY_ADVICE, FOLLOW) && Foreign(BUY_POINT, FOLLOW);
    FollowIsForeign();
    AdviceIsForeign();
    PointIsForeign();
    hide Foreign;
  }

  lemma ProfitPhrasesAreForeign()
    ensures Foreign(BUY_ADVICE, SURE_WIN) && Foreign(BUY_ADVICE, STEADY) && Foreign(BUY_POINT, SURE_WIN)
    ensures Foreign(BUY_POINT, STEADY) && Foreign(FOLLOW, SURE_WIN) && Foreign(FOLLOW, STEADY)
  {
  }

  lemma ProfitIsApart()
    ensures Apart(RULE_ADVICE, RULE_PROFIT) && Apart(RULE_POINT, RULE_PROFIT) && Apart(RULE_FOLLOW, RULE_PROFIT)
  {
    ProfitPhrasesAreForeign();
    ProfitPhrasesAreNotReplacements();
    AdviceIsForeign();
    PointIsForeign();
    OthersAreForeign();
    hide Foreign;
    assert RULE_PROFIT.phrases == [SURE_WIN, STEADY];
  }

  /** No pass of the two last rules makes or breaks a 建議買入點. */
  lemma OverlapsStay(t: string)
    ensures Free(OVERLAP, Sub(RULE_FOLLOW, Sub(RULE_PROFIT, t))) <==> Free(OVERLAP, t)
  {
    assert Foreign(FOLLOW, OVERLAP) && Foreign(SURE_WIN, OVERLAP) && Foreign(STEADY, OVERLAP);
    assert Foreign(OVERLAP, RULE_FOLLOW.replacement) && Foreign(OVERLAP, RULE_PROFIT.replacement);
    hide Foreign, Free, Sub;
    OccurrencesStay(RULE_PROFIT, OVERLAP, t);
    OccurrencesStay(RULE_FOLLOW, OVERLAP, Sub(RULE_PROFIT, t));
  }

  /** `a` stands before `p`. */
  ghost predicate Precedes(order: seq<Rule>, a: Rule, p: Rule) {
    exists i, j :: 0 <= i < j < |order| && order[i] == a && order[j] == p
  }

  function Without(order: seq<Rule>, k: nat): seq<Rule>
    requires k < |order|
  {
    order[..k] + order[k + 1..]
  }

  lemma TakeOut(order: seq<Rule>, rule: Rule, others: multiset<Rule>) returns (k: nat)
    requires multiset(order) == others + multiset{rule}
    ensures k < |order| && order[k] == rule && order == order[..k] + [rule] + order[k + 1..]
    ensures multiset(Without(order, k)) == others
    ensures forall i :: 0 <= i < k ==> order[i] in others
  {
    assert rule in multiset(order);
    k :| 0 <= k < |order| && order[k] == rule;
    assert order == order[..k] + [rule] + order[k + 1..];
    var left, right := multiset(order[..k]), multiset(order[k + 1..]);
    assert multiset(order) == left + multiset{rule} + right;
    assert others == multiset(order) - multiset{rule} == left + right;
    forall i | 0 <= i < k ensures order[i] in others {
      assert order[i] in order[..k];
      assert order[i] in left;
    }
  }

  lemma RemovalKeepsPrecedence(order: seq<Rule>, k: nat, a: Rule, p: Rule)
    requires k < |order| && order[k] != a && order[k] != p
    ensures Precedes(Without(order, k), a, p) <==> Precedes(order, a, p)
  {
    if Precedes(order, a, p) { PrecedesWithout(order, k, a, p); }
    if Precedes(Without(order, k), a, p) { PrecedesWith(order, k, a, p); }
  }

  lemma PrecedesWithout(order: seq<Rule>, k: nat, a: Rule, p: Rule)
    requires k < |order| && order[k] != a && order[k] != p && Precedes(order, a, p)
    ensures Precedes(Without(order, k), a, p)
  {
    var less := Without(order, k);
    var i, j :| 0 <= i < j < |order| && order[i] == a && order[j] == p;
    var i', j' := if i < k then i else i - 1, if j < k then j else j - 1;
    assert 0 <= i' < j' < |less| && less[i'] == a && less[j'] == p;
  }

  lemma PrecedesWith(order: seq<Rule>, k: nat, a: Rule, p: Rule)
    requires k < |order| && Precedes(Without(order, k), a, p)
    ensures Precedes(order, a, p)
  {
    var less := Without(order, k);
    var i, j :| 0 <= i < j < |less| && less[i] == a && less[j] == p;
    var i', j' := if i < k then i else i + 1, if j < k then j else j + 1;
    assert 0 <= i' < j' < |order| && order[i'] == a && order[j'] == p;
  }

  lemma TwoLeft(order: seq<Rule>, a: Rule, p: Rule)
    requires multiset(order) == multiset{a, p} && a != p
    ensures order == if Precedes(order, a, p) then [a, p] else [p, a]
  {
    assert |order| == |multiset(order)| == 2;
    assert order == [order[0], order[1]];
    assert multiset(order) == multiset{order[0], order[1]};
    assert multiset{a, p}[a] == 1 && multiset{a, p}[p] == 1;
    assert order[0] in multiset(order) && order[1] in multiset(order);
  }

  /** The one-rule tables of a two-rule table. */
  lemma PairOfPasses(a: Rule, b: Rule, t: string)
    ensures PurifyWith([a, b], t) == Sub(b, Sub(a, t))
  {
    hide Sub;
    assert [a, b][..1] == [a] && [a][..0] == [];
    assert PurifyWith([a], t) == Sub(a, PurifyWith([], t));
    assert PurifyWith([a, b], t) == Sub(b, PurifyWith([a], t));
  }

  lemma RulesDiffer()
    ensures RULE_ADVICE != RULE_POINT && RULE_ADVICE != RULE_FOLLOW && RULE_ADVICE != RULE_PROFIT
    ensures RULE_POINT != RULE_FOLLOW && RULE_POINT != RULE_PROFIT && RULE_FOLLOW != RULE_PROFIT
  {
    assert |RULE_ADVICE.replacement| == 11 && |RULE_POINT.replacement| == 5 && |RULE_PROFIT.replacement| == 8;
    assert RULE_FOLLOW.replacement[0] == '法' && RULE_PROFIT.replacement[0] == '歷' && |RULE_FOLLOW.replacement| == 8;
  }

  /** Every ordering acts as the two last rules of the table followed by the two first ones, in the order it has
      them. */
  lemma OrderingActs(order: seq<Rule>, t: string)
    requires IsOrdering(order)
    ensures var u := Sub(RULE_FOLLOW, Sub(RULE_PROFIT, t));
            PurifyWith(order, t)
            == if Precedes(order, RULE_ADVICE, RULE_POINT) then AdviceFirst(u) else PointFirst(u)
  {
    RulesDiffer();
    RulesAreUnambiguous();
    FollowIsApart();
    ProfitIsApart();
    var a, p, f, r := RULE_ADVICE, RULE_POINT, RULE_FOLLOW, RULE_PROFIT;
    OrderingOf(order, a, p, f, r, t);
  }

  lemma OrderingOf(order: seq<Rule>, a: Rule, p: Rule, f: Rule, r: Rule, t: string)
    requires multiset(order) == multiset{a, p, f, r} && a != p && f != a && f != p && r != a && r != p && r != f
    requires Unambiguous(a) && Unambiguous(p) && Unambiguous(f) && Unambiguous(r)
    requires Apart(a, f) && Apart(p, f) && Apart(a, r) && Apart(p, r) && Apart(f, r)
    ensures var u := Sub(f, Sub(r, t));
            PurifyWith(order, t) == if Precedes(order, a, p) then Sub(p, Sub(a, u)) else Sub(a, Sub(p, u))
  {
    hide Sub, Unambiguous, Apart, Precedes, PurifyWith;
    assert multiset{a, p, f, r} == multiset{a, p, f} + multiset{r};
    var three := RuleFirst(order, r, multiset{a, p, f}, a, p, t);
    OrderingOfThree(three, a, p, f, Sub(r, t));
  }

  lemma OrderingOfThree(order: seq<Rule>, a: Rule, p: Rule, f: Rule, t: string)
    requires multiset(order) == multiset{a, p, f} && a != p && f != a && f != p
    requires Unambiguous(a) && Unambiguous(p) && Unambiguous(f) && Apart(a, f) && Apart(p, f)
    ensures var u := Sub(f, t);
            PurifyWith(order, t) == if Precedes(order, a, p) then Sub(p, Sub(a, u)) else Sub(a, Sub(p, u))
  {
    hide Sub, Unambiguous, Apart, Precedes, PurifyWith;
    assert multiset{a, p, f} == multiset{a, p} + multiset{f};
    var two := RuleFirst(order, f, multiset{a, p}, a, p, t);
    TwoLeft(two, a, p);
    PairOfPasses(a, p, Sub(f, t));
    PairOfPasses(p, a, Sub(f, t));
  }

  /** A rule apart from all others can be taken out and applied first. */
  lemma RuleFirst(order: seq<Rule>, rule: Rule, others: multiset<Rule>, a: Rule, p: Rule, t: string)
    returns (rest: seq<Rule>)
    requires multiset(order) == others + multiset{rule} && rule != a && rule != p
    requires Unambiguous(rule) && forall o :: o in others ==> Unambiguous(o) && Apart(o, rule)
    ensures multiset(rest) == others && PurifyWith(order, t) == PurifyWith(rest, Sub(rule, t))
    ensures Precedes(rest, a, p) <==> Precedes(order, a, p)
  {
    hide Sub, Unambiguous, Apart, Precedes, PurifyWith;
    var k := TakeOut(order, rule, others);
    rest := Without(order, k);
    MoveToFront(order[..k], rule, order[k + 1..], t);
    RemovalKeepsPrecedence(order, k, a, p);
  }

  /** The table's comment says that order does not matter.  Of the 24 orders of the table, the twelve that
      replace 建議買入 before 買入點 always give the same text; each of the others gives the same text
      exactly when 建議買入點 does not occur. */
  lemma OrderMattersIff(order: seq<Rule>, t: string)
    requires IsOrdering(order)
    ensures PurifyWith(order, t) == PurifyWith(RULES, t)
            <==> Precedes(order, RULE_ADVICE, RULE_POINT) || Free(OVERLAP, t)
  {
    TableIsOrdering();
    OrderingActs(order, t);
    OrderingActs(RULES, t);
    hide Sub, PurifyWith, AdviceFirst, PointFirst, Free, IsOrdering, Precedes;
    SwapMattersIffOverlap(Sub(RULE_FOLLOW, Sub(RULE_PROFIT, t)));
    OverlapsStay(t);
  }

  /** The two first rules swapped, on the overlap itself. */
  lemma SwappedTableDiffers()
    ensures var order := [RULE_POINT, RULE_ADVICE, RULE_FOLLOW, RULE_PROFIT];
            IsOrdering(order) && PurifyWith(order, OVERLAP) != PurifyWith(RULES, OVERLAP)
  {
    var order := [RULE_POINT, RULE_ADVICE, RULE_FOLLOW, RULE_PROFIT];
    RulesDiffer();
    assert OVERLAP[0..] == OVERLAP;
    OrderMattersIff(order, OVERLAP);
  }
}
