/** `keywordAdvice` of script.js: keyword groups found in a memo select tips. */
module Advice {

  /** One `if(has([...])) tips.push(...)` line: a keyword group and its tip. */
  datatype Rule = Rule(keywords: seq<string>, tip: string)

  /** The ten rules, in the order the source tests them. */
  const Rules: seq<Rule> := [
    Rule(["右", "right"], "右展開が多い。左カウンターに注意しつつサイド交替を。"),
    Rule(["左", "left"], "左展開傾向。中央の圧力を維持しクロス射線を。"),
    Rule(["ラッシュ", "rush", "凸"], "ラッシュ多め。2段目カバー位置の事前決めで被弾減。"),
    Rule(["待ち", "芋", "camp"], "待ち中心。1名前進の“釣り”でリズム変化を。"),
    Rule(["連携", "報告", "コール"], "コール表現の固定化で安定感UP。"),
    Rule(["リロード", "弾切れ"], "前リロード習慣化＆遮蔽物裏の角度作りを。"),
    Rule(["裏取り", "flank"], "退路確保とタイミング共有で成功率UP。"),
    Rule(["視界", "ライト"], "ライトは“一瞬点灯→オフ”。ピークは浅めに。"),
    Rule(["屋外", "森林"], "屋外は射程管理と一射入魂を。"),
    Rule(["cqb", "屋内", "インドア"], "CQBは“手前確保→段階前進”で被弾減。")
  ]

  /** JavaScript's `text.includes(w)`, by scanning start positions. */
  function Includes(text: string, w: string): bool
    decreases |text|
  {
    w <= text || (text != [] && Includes(text[1..], w))
  }

  /** `w` occurs in `text` starting at position `i`. */
  predicate OccursAt(text: string, w: string, i: int) {
    0 <= i <= |text| - |w| && text[i..i + |w|] == w
  }

  /** `Includes` finds exactly the substrings of `text`. */
  lemma {:induction false} IncludesIff(text: string, w: string)
    ensures Includes(text, w) <==> exists i :: OccursAt(text, w, i)
    decreases |text|
  {
    if w <= text {
      assert OccursAt(text, w, 0);
    }
    if text != [] {
      IncludesIff(text[1..], w);
      if Includes(text[1..], w) {
        var i :| OccursAt(text[1..], w, i);
        assert text[1..][i..i + |w|] == text[i + 1..i + 1 + |w|];
        assert OccursAt(text, w, i + 1);
      }
      if i :| OccursAt(text, w, i) {
        if i > 0 {
          assert text[1..][i - 1..i - 1 + |w|] == text[i..i + |w|];
          assert OccursAt(text[1..], w, i - 1);
        } else {
          assert text[..|w|] == w;
        }
      }
    } else {
      if i :| OccursAt(text, w, i) {
        assert |w| == 0;
      }
    }
  }

  /** `has(ws)`: some keyword of the group occurs in the text. */
  predicate Fires(r: Rule, text: string) {
    exists k :: 0 <= k < |r.keywords| && Includes(text, r.keywords[k])
  }

  /** The tips pushed for `text` by the rules `rs`, in rule order. */
  function Matched(rs: seq<Rule>, text: string): seq<string>
    decreases |rs|
  {
    if rs == [] then []
    else
      var last := rs[|rs| - 1];
      Matched(rs[..|rs| - 1], text) + (if Fires(last, text) then [last.tip] else [])
  }

  /** A tip is pushed exactly when one of its rules fires. */
  lemma {:induction false} MatchedIff(rs: seq<Rule>, text: string, t: string)
    ensures t in Matched(rs, text) <==> exists i :: 0 <= i < |rs| && rs[i].tip == t && Fires(rs[i], text)
    decreases |rs|
  {
    if rs != [] {
      var init := rs[..|rs| - 1];
      MatchedIff(init, text, t);
      if i :| 0 <= i < |init| && init[i].tip == t && Fires(init[i], text) {
        assert rs[i] == init[i];
      }
      if i :| 0 <= i < |rs| && rs[i].tip == t && Fires(rs[i], text) {
        if i < |init| {
          assert init[i] == rs[i];
        }
      }
    }
  }

  predicate Distinct(s: seq<string>) {
    forall i, j :: 0 <= i < j < |s| ==> s[i] != s[j]
  }

  /** The position of the first occurrence of `x` in `s`. */
  function IndexOf(s: seq<string>, x: string): (k: nat)
    requires x in s
    ensures k < |s| && s[k] == x
    ensures forall j :: 0 <= j < k ==> s[j] != x
    decreases |s|
  {
    if s[0] == x then 0 else 1 + IndexOf(s[1..], x)
  }

  /** Appending an element does not move the first occurrence of an earlier one. */
  lemma IndexOfAppend(s: seq<string>, y: string, x: string)
    requires x in s
    ensures IndexOf(s + [y], x) == IndexOf(s, x)
  {
    var a, b := IndexOf(s + [y], x), IndexOf(s, x);
    assert (s + [y])[b] == x;
  }

  /** `Array.from(new Set(s))`: the first occurrence of each element, in the
      order of those first occurrences. */
  function Unique(s: seq<string>): (r: seq<string>)
    ensures Distinct(r)
    ensures forall x :: x in r <==> x in s
    ensures forall i, j :: 0 <= i < j < |r| ==> IndexOf(s, r[i]) < IndexOf(s, r[j])
    decreases |s|
  {
    if s == [] then []
    else
      var init, last := s[..|s| - 1], s[|s| - 1];
      var u := Unique(init);
      assert s == init + [last];
      assert forall x :: x in s <==> x in init || x == last;
      assert forall x :: x in init ==> IndexOf(s, x) == IndexOf(init, x) by {
        forall x | x in init ensures IndexOf(s, x) == IndexOf(init, x) {
          IndexOfAppend(init, last, x);
        }
      }
      if last in u then u
      else
        assert IndexOf(s, last) == |s| - 1;
        u + [last]
  }

  /** Removing duplicates from a list that has none changes nothing. */
  lemma {:induction false} UniqueOfDistinct(s: seq<string>)
    requires Distinct(s)
    ensures Unique(s) == s
    decreases |s|
  {
    if s != [] {
      var init := s[..|s| - 1];
      UniqueOfDistinct(init);
      assert s[|s| - 1] !in init;
      assert init + [s[|s| - 1]] == s;
    }
  }

  /** A filter of a list without duplicates has none. */
  lemma {:induction false} MatchedDistinct(rs: seq<Rule>, text: string)
    requires forall i, j :: 0 <= i < j < |rs| ==> rs[i].tip != rs[j].tip
    ensures Distinct(Matched(rs, text))
    decreases |rs|
  {
    if rs != [] {
      var init := rs[..|rs| - 1];
      MatchedDistinct(init, text);
      var last := rs[|rs| - 1];
      MatchedIff(init, text, last.tip);
    }
  }

  /** `keywordAdvice(text)`: on empty text no tips; otherwise each rule whose group
      has a keyword in the text contributes its tip, in rule order, each tip once. */
  method KeywordAdvice(text: string) returns (tips: seq<string>)
    ensures text == [] ==> tips == []
    ensures text != [] ==> tips == Matched(Rules, text)
    ensures forall t :: t in tips <==> text != [] && exists i :: 0 <= i < |Rules| && Rules[i].tip == t && Fires(Rules[i], text)
    ensures Distinct(tips)
  {
    if text == [] {
      return [];
    }
    var pushed: seq<string> := [];
    for n := 0 to |Rules|
      invariant pushed == Matched(Rules[..n], text)
    {
      assert Rules[..n + 1][..n] == Rules[..n];
      if Fires(Rules[n], text) {
        pushed := pushed + [Rules[n].tip];
      }
    }
    assert Rules[..|Rules|] == Rules;
    MatchedDistinct(Rules, text);
    UniqueOfDistinct(pushed);
    tips := Unique(pushed);
    forall t | true
      ensures t in tips <==> exists i :: 0 <= i < |Rules| && Rules[i].tip == t && Fires(Rules[i], text)
    {
      MatchedIff(Rules, text, t);
    }
  }
}
