/** The tag list page: each `.tags a` node yields a tag name and a check-in count written `(n)`
    (tissue.go, `ListTags`). */
module TagList {
  import opened Wrappers
  import opened GoStrconv

  /** The texts already extracted from one tag node: `.tag-name` and `.checkins-count`. */
  datatype TagNode = TagNode(nameText: string, countText: string)

  /** `ListTagsResult`. */
  datatype ListTagsResult = ListTagsResult(name: string, count: int)

  /** The count sentinel for text that does not parse. */
  const UnknownCount: int := -1

  /** Removes at most one leading `(` and then at most one trailing `)`. */
  function StripCountParens(t: string): (r: string)
    ensures t == r || t == "(" + r || t == r + ")" || t == "(" + r + ")"
    ensures |t| > 0 && t[0] == '(' ==> |r| < |t|
    ensures (|t| == 0 || (t[0] != '(' && t[|t| - 1] != ')')) ==> r == t
    ensures |t| >= 2 && t[0] == '(' && t[|t| - 1] == ')' ==> t == "(" + r + ")"
    ensures |t| >= 1 && t[0] != '(' && t[|t| - 1] == ')' ==> t == r + ")"
    ensures |t| >= 1 && t[0] == '(' && t[|t| - 1] != ')' ==> t == "(" + r
  {
    var withoutOpen := if |t| > 0 && t[0] == '(' then t[1..] else t;
    if |withoutOpen| > 0 && withoutOpen[|withoutOpen| - 1] == ')' then withoutOpen[..|withoutOpen| - 1]
    else withoutOpen
  }

  /** The count decoded from a `.checkins-count` text, or `UnknownCount`. */
  function TagCount(countText: string): (n: int)
    ensures ParseDecimal(StripCountParens(countText)).Some? ==> n == ParseDecimal(StripCountParens(countText)).value
    ensures ParseDecimal(StripCountParens(countText)).None? ==> n == UnknownCount
  {
    match ParseDecimal(StripCountParens(countText))
    case Some(count) => count
    case None => UnknownCount
  }

  lemma StripCountParensOfNumber(s: string)
    requires IsDecimal(s)
    ensures StripCountParens(s) == s
    ensures StripCountParens("(" + s + ")") == s
  {
    assert ("(" + s + ")")[1..] == s + ")";
    assert (s + ")")[..|s|] == s;
  }

  /** Both `(n)` and a bare `n` decode to `n`, for every 64-bit `n`. */
  lemma TagCountOfRendered(n: int)
    requires InInt64(n)
    ensures TagCount("(" + FormatInt(n) + ")") == n
    ensures TagCount(FormatInt(n)) == n
  {
    StripCountParensOfNumber(FormatInt(n));
    ParseFormatInt(n);
  }

  /** Only one parenthesis is removed on each side: `((n))` does not decode. */
  lemma TagCountAtMostOneParen(n: int)
    ensures TagCount("((" + FormatInt(n) + "))") == UnknownCount
  {
    var s := FormatInt(n);
    var t := "((" + s + "))";
    assert t[1..] == "(" + s + "))";
    assert ("(" + s + "))")[..|s| + 2] == "(" + s + ")";
    assert StripCountParens(t) == "(" + s + ")";
    assert !IsDecimal("(" + s + ")");
  }

  /** `(12)` and `12` both decode to 12. */
  lemma TagCountExamples()
    ensures TagCount("(12)") == 12
    ensures TagCount("12") == 12
  {
    assert FormatInt(12) == "12";
    assert "(" + "12" + ")" == "(12)";
    TagCountOfRendered(12);
  }

  /** The `Each` loop of `ListTags`: a result slice allocated with one zero-valued entry per node,
      then filled in node order. */
  method ListTags(nodes: seq<TagNode>) returns (result: array<ListTagsResult>)
    ensures fresh(result) && result.Length == |nodes|
    ensures forall i :: 0 <= i < |nodes| ==>
              result[i] == ListTagsResult(nodes[i].nameText, TagCount(nodes[i].countText))
  {
    result := new ListTagsResult[|nodes|](_ => ListTagsResult("", 0));
    for i := 0 to |nodes|
      invariant forall k :: 0 <= k < i ==>
                  result[k] == ListTagsResult(nodes[k].nameText, TagCount(nodes[k].countText))
    {
      var name := nodes[i].nameText;
      var countText := nodes[i].countText;
      if |countText| > 0 && countText[0] == '(' {
        countText := countText[1..];
      }
      if |countText| > 0 && countText[|countText| - 1] == ')' {
        countText := countText[..|countText| - 1];
      }
      var count := UnknownCount;
      var parsed := ParseDecimal(countText);
      if parsed.Some? {
        count := parsed.value;
      }
      assert countText == StripCountParens(nodes[i].countText);
      assert count == TagCount(nodes[i].countText);
      result[i] := ListTagsResult(name, count);
    }
  }
}
