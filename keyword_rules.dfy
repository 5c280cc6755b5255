/**
 * Keyword tables: a list of rules, each a tag with the keywords that
 * trigger it, checked in table order against a text (the pattern of
 * `for tag, keywords in table: if any(k in text for k in keywords):
 * result.append(tag)`).
 */
module KeywordRules {
  import opened Strings

  datatype Rule = Rule(tag: string, keywords: seq<string>)

  /** The labels of the rules one of whose keywords occurs in `text`, in table order. */
  function Matching(rules: seq<Rule>, text: string): seq<string>
  {
    if rules == [] then []
    else
      var last := rules[|rules| - 1];
      Matching(rules[..|rules| - 1], text) + (if ContainsAny(text, last.keywords) then [last.tag] else [])
  }

  /** A tag is reported iff one of its keywords occurs in the text. */
  lemma {:induction false} MatchingMembers(rules: seq<Rule>, text: string, d: string)
    ensures d in Matching(rules, text) <==>
              exists k :: 0 <= k < |rules| && rules[k].tag == d && ContainsAny(text, rules[k].keywords)
    decreases |rules|
  {
    if rules != [] {
      var pre := rules[..|rules| - 1];
      var last := rules[|rules| - 1];
      var tail := if ContainsAny(text, last.keywords) then [last.tag] else [];
      MatchingMembers(pre, text, d);
      assert Matching(rules, text) == Matching(pre, text) + tail;
      if d in Matching(pre, text) {
        var k :| 0 <= k < |pre| && pre[k].tag == d && ContainsAny(text, pre[k].keywords);
        assert rules[k] == pre[k];
      } else if d in tail {
        assert rules[|rules| - 1].tag == d && ContainsAny(text, rules[|rules| - 1].keywords);
      }
      if exists k :: 0 <= k < |rules| && rules[k].tag == d && ContainsAny(text, rules[k].keywords) {
        var k :| 0 <= k < |rules| && rules[k].tag == d && ContainsAny(text, rules[k].keywords);
        if k < |pre| {
          assert pre[k] == rules[k];
        } else {
          assert d in tail;
        }
      }
    }
  }

  /** Reported labels come in table order: each pair stems from two table rows in that order. */
  lemma {:induction false} MatchingOrder(rules: seq<Rule>, text: string, i: nat, j: nat)
    requires i < j < |Matching(rules, text)|
    ensures exists p, q :: 0 <= p < q < |rules|
                           && rules[p].tag == Matching(rules, text)[i]
                           && rules[q].tag == Matching(rules, text)[j]
    decreases |rules|
  {
    var pre := rules[..|rules| - 1];
    var last := rules[|rules| - 1];
    var tail := if ContainsAny(text, last.keywords) then [last.tag] else [];
    var ms := Matching(rules, text);
    var msPre := Matching(pre, text);
    assert ms == msPre + tail;
    if j < |msPre| {
      MatchingOrder(pre, text, i, j);
      var p, q :| 0 <= p < q < |pre| && pre[p].tag == msPre[i] && pre[q].tag == msPre[j];
      assert rules[p] == pre[p] && rules[q] == pre[q];
    } else {
      assert ms[i] == msPre[i];
      MatchingMembers(pre, text, msPre[i]);
      var p :| 0 <= p < |pre| && pre[p].tag == msPre[i] && ContainsAny(text, pre[p].keywords);
      assert rules[p] == pre[p];
      assert ms[j] == last.tag;
      var q := |rules| - 1;
      assert 0 <= p < q < |rules| && rules[p].tag == ms[i] && rules[q].tag == ms[j];
    }
  }

  /** With distinct table labels, no tag is reported twice. */
  lemma {:induction false} MatchingDistinct(rules: seq<Rule>, text: string)
    requires forall p, q :: 0 <= p < q < |rules| ==> rules[p].tag != rules[q].tag
    ensures forall i, j :: 0 <= i < j < |Matching(rules, text)| ==>
              Matching(rules, text)[i] != Matching(rules, text)[j]
    decreases |rules|
  {
    if rules != [] {
      var pre := rules[..|rules| - 1];
      var last := rules[|rules| - 1];
      var tail := if ContainsAny(text, last.keywords) then [last.tag] else [];
      var ms := Matching(rules, text);
      var msPre := Matching(pre, text);
      assert ms == msPre + tail;
      MatchingDistinct(pre, text);
      forall k | 0 <= k < |pre| ensures pre[k].tag != last.tag {
        assert pre[k] == rules[k];
      }
      MatchingMembers(pre, text, last.tag);
      forall i, j | 0 <= i < j < |ms| ensures ms[i] != ms[j] {
        if j < |msPre| {
          assert ms[i] == msPre[i] && ms[j] == msPre[j];
        } else {
          assert ms[i] == msPre[i] && ms[i] in msPre && ms[j] == last.tag;
        }
      }
    }
  }

  /** At most one tag per table row. */
  lemma {:induction false} MatchingLength(rules: seq<Rule>, text: string)
    ensures |Matching(rules, text)| <= |rules|
    decreases |rules|
  {
    if rules != [] {
      MatchingLength(rules[..|rules| - 1], text);
    }
  }
}
