/** The byte-string surgery the encoders use to drop a default-valued
    property from `json.Marshal` output (struct.go, `removeProperty` and
    `sanitizeJSON`). JSON text is modelled as a string; every pattern involved
    is ASCII, so character and byte positions agree. */
module JsonSurgery {
  import opened Base

  /** `removeProperty` as written: delete the first occurrence of `pattern`,
      then collapse the first ",," of the result, wherever it is. */
  function RemoveProperty(pattern: string, b: string): (r: string)
    ensures |r| <= |b| && |b| - |r| <= |pattern| + 1
    ensures Contains(b, pattern) ==> |r| <= |b| - |pattern|
    ensures !Contains(b, pattern) && !Contains(b, ",,") ==> r == b
  {
    ReplaceFirst(ReplaceFirst(b, pattern, ""), ",,", ",")
  }

  /** `sanitizeJSON`: the first "{," becomes "{", then the first ",}"
      becomes "}". */
  function SanitizeJson(b: string): (r: string)
    ensures |r| <= |b| && |b| - |r| <= 2
    ensures !Contains(b, "{,") && !Contains(b, ",}") ==> r == b
  {
    ReplaceFirst(ReplaceFirst(b, "{,", "{"), ",}", "}")
  }

  /** `removeProperty` as intended: delete the first occurrence of
      `pattern` together with one separator comma next to it (the one before
      it if there is one, else the one after it), and nothing else. The first
      occurrence is taken to be the property itself; an earlier `extensions`
      or `extras` value holding the same text would lose it instead. */
  function RemovePropertyIntended(pattern: string, b: string): (r: string)
    ensures !Contains(b, pattern) ==> r == b
    ensures Contains(b, pattern) ==> |b| - |pattern| - 1 <= |r| <= |b| - |pattern|
  {
    match FirstIndex(b, pattern)
    case None => b
    case Some(i) =>
      var j := i + |pattern|;
      if 0 < i && b[i - 1] == ',' then b[..i - 1] + b[j..]
      else if j < |b| && b[j] == ',' then b[..i] + b[j + 1..]
      else b[..i] + b[j..]
  }

  /** `r` is `b` without `b[lo..hi]`, a span made of the `n` characters at
      `i` and separator commas only, at most one of them. */
  ghost predicate DeletesSpan(b: string, i: nat, n: nat, lo: nat, hi: nat, r: string)
  {
    && lo <= i && i + n <= hi <= |b| && hi - lo <= n + 1
    && r == b[..lo] + b[hi..]
    && (forall k :: lo <= k < hi && !(i <= k < i + n) ==> b[k] == ',')
  }

  /** The intended removal keeps every character outside the deleted
      occurrence and its one separator, in order. */
  lemma {:induction false} IntendedKeepsTheRest(pattern: string, b: string)
    requires Contains(b, pattern)
    ensures exists lo: nat, hi: nat :: DeletesSpan(b, FirstIndex(b, pattern).value, |pattern|, lo, hi, RemovePropertyIntended(pattern, b))
  {
    var i := FirstIndex(b, pattern).value;
    var j := i + |pattern|;
    var r := RemovePropertyIntended(pattern, b);
    if 0 < i && b[i - 1] == ',' {
      assert DeletesSpan(b, i, |pattern|, i - 1, j, r);
    } else if j < |b| && b[j] == ',' {
      assert DeletesSpan(b, i, |pattern|, i, j + 1, r);
    } else {
      assert DeletesSpan(b, i, |pattern|, i, j, r);
    }
  }

  /** Deleting an occurrence of `pattern` that sits between two commas
      leaves those commas adjacent. */
  lemma DeletionLeavesCommaPair(pre: string, pattern: string, post: string)
    requires FirstIndex(pre + "," + pattern + "," + post, pattern) == Some(|pre| + 1)
    ensures ReplaceFirst(pre + "," + pattern + "," + post, pattern, "") == pre + ",," + post
  {
    var left, right := pre + ",", "," + post;
    SplitAround(left, pattern, right);
    assert pre + "," + pattern + "," + post == left + pattern + right;
    ReplaceAt(left + pattern + right, pattern, "", |left|);
    assert left + right == pre + ",," + post;
  }

  /** The pieces around a middle part. */
  lemma SplitAround(left: string, mid: string, right: string)
    ensures (left + mid + right)[..|left|] == left
    ensures (left + mid + right)[|left| + |mid|..] == right
  {
  }

  /** With no ",," in `pre` and its comma, the first ",," is the one left by
      the deletion. */
  lemma FirstCommaPairAfter(pre: string, post: string)
    requires !Contains(pre + ",", ",,")
    ensures ReplaceFirst(pre + ",," + post, ",,", ",") == pre + "," + post
  {
    var s1 := pre + ",," + post;
    var k := |pre|;
    assert s1[k..k + 2] == ",,";
    forall m | 0 <= m < k ensures !OccursAt(s1, ",,", m) {
      assert s1[m..m + 2] == (pre + ",")[m..m + 2];
      assert !OccursAt(pre + ",", ",,", m);
    }
    FirstIndexIs(s1, ",,", k);
    ReplaceAt(s1, ",,", ",", k);
    assert s1[..k] == pre;
    assert s1[k + 2..] == post;
  }

  /** When the property sits between two separator commas and no ",," comes
      before it, the code as written does what was intended: the property
      and one of its commas disappear. */
  lemma {:induction false} AsWrittenAgreesBetweenSeparators(pre: string, pattern: string, post: string)
    requires FirstIndex(pre + "," + pattern + "," + post, pattern) == Some(|pre| + 1)
    requires !Contains(pre + ",", ",,")
    ensures RemoveProperty(pattern, pre + "," + pattern + "," + post) == pre + "," + post
    ensures RemovePropertyIntended(pattern, pre + "," + pattern + "," + post) == pre + "," + post
  {
    DeletionLeavesCommaPair(pre, pattern, post);
    FirstCommaPairAfter(pre, post);
    IntendedBetweenSeparators(pre, pattern, post);
  }

  /** The intended removal takes the comma before the property when there
      is one. */
  lemma IntendedTakesCommaBefore(pattern: string, b: string, i: nat)
    requires FirstIndex(b, pattern) == Some(i) && 0 < i && b[i - 1] == ','
    ensures RemovePropertyIntended(pattern, b) == b[..i - 1] + b[i + |pattern|..]
  {
  }

  /** The pieces around a property between two commas. */
  lemma SplitAroundComma(pre: string, mid: string, right: string)
    ensures (pre + "," + mid + right)[|pre|] == ','
    ensures (pre + "," + mid + right)[..|pre|] == pre
    ensures (pre + "," + mid + right)[|pre| + 1 + |mid|..] == right
  {
  }

  /** The intended removal takes the comma before the property. */
  lemma IntendedBetweenSeparators(pre: string, pattern: string, post: string)
    requires FirstIndex(pre + "," + pattern + "," + post, pattern) == Some(|pre| + 1)
    ensures RemovePropertyIntended(pattern, pre + "," + pattern + "," + post) == pre + "," + post
  {
    SplitAroundComma(pre, pattern, "," + post);
    assert pre + "," + pattern + "," + post == pre + "," + pattern + ("," + post);
    IntendedTakesCommaBefore(pattern, pre + "," + pattern + "," + post, |pre| + 1);
  }

  /** The start of a serialised Node, up to and including the quote that
      opens its name. */
  const NameOpen: string := "{\"name\":\""
  const DefaultScalePattern: string := "\"scale\":[1,1,1]"
  /** A serialised Node whose name is the string ",," and whose scale is
      the default. */
  const NodeWithCommaName: string := NameOpen + ",,\"," + DefaultScalePattern + "}"
  /** `NodeWithCommaName` with its scale deleted. */
  const ScaleDeleted: string := NameOpen + ",,\",}"
  /** `ScaleDeleted` with the comma pair inside the name collapsed. */
  const NameCollapsed: string := NameOpen + ",\",}"
  /** `NameCollapsed` sanitised: the name has lost a comma. */
  const NameCorrupted: string := NameOpen + ",\"}"
  /** `NodeWithCommaName` with its scale and the comma before it deleted. */
  const ScaleRemoved: string := NameOpen + ",,\"}"

  /** The default scale starts right after the comma that ends the name. */
  lemma ScaleFound()
    ensures FirstIndex(NodeWithCommaName, DefaultScalePattern) == Some(13)
  {
    ScaleFoundSkipped();
    ScaleFoundEnds();
    SkipRange(NodeWithCommaName, DefaultScalePattern, 0, 13);
  }

  lemma ScaleFoundSkipped()
    ensures forall m :: 0 <= m < 13 ==> NodeWithCommaName[m] != DefaultScalePattern[0] || NodeWithCommaName[m + 1] != DefaultScalePattern[1]
  {
  }

  lemma ScaleFoundEnds()
    ensures FirstIndexFrom(NodeWithCommaName, DefaultScalePattern, 13) == Some(13)
  {
    assert NodeWithCommaName[13..13+|DefaultScalePattern|] == DefaultScalePattern;
  }

  /** After the deletion, the first ",," is the name's own. */
  lemma CommaPairInName()
    ensures FirstIndex(ScaleDeleted, ",,") == Some(9)
  {
    CommaPairInNameSkipped();
    CommaPairInNameEnds();
    SkipRange(ScaleDeleted, ",,", 0, 9);
  }

  lemma CommaPairInNameSkipped()
    ensures forall m :: 0 <= m < 9 ==> ScaleDeleted[m] != ",,"[0] || ScaleDeleted[m + 1] != ",,"[1]
  {
  }

  lemma CommaPairInNameEnds()
    ensures FirstIndexFrom(ScaleDeleted, ",,", 9) == Some(9)
  {
    assert ScaleDeleted[9..9+2] == ",,";
  }

  /** No "{," to remove after the collapse. */
  lemma CollapsedNoOpenBraceComma()
    ensures FirstIndex(NameCollapsed, "{,") == None
  {
    CollapsedNoOpenBraceCommaSkipped();
    CollapsedNoOpenBraceCommaEnds();
    SkipRange(NameCollapsed, "{,", 0, 12);
  }

  lemma CollapsedNoOpenBraceCommaSkipped()
    ensures forall m :: 0 <= m < 12 ==> NameCollapsed[m] != "{,"[0] || NameCollapsed[m + 1] != "{,"[1]
  {
  }

  lemma CollapsedNoOpenBraceCommaEnds()
    ensures FirstIndexFrom(NameCollapsed, "{,", 12) == None
  {
  }

  /** The comma left before the closing brace. */
  lemma CollapsedTrailingComma()
    ensures FirstIndex(NameCollapsed, ",}") == Some(11)
  {
    CollapsedTrailingCommaSkipped();
    CollapsedTrailingCommaEnds();
    SkipRange(NameCollapsed, ",}", 0, 11);
  }

  lemma CollapsedTrailingCommaSkipped()
    ensures forall m :: 0 <= m < 11 ==> NameCollapsed[m] != ",}"[0] || NameCollapsed[m + 1] != ",}"[1]
  {
  }

  lemma CollapsedTrailingCommaEnds()
    ensures FirstIndexFrom(NameCollapsed, ",}", 11) == Some(11)
  {
    assert NameCollapsed[11..11+2] == ",}";
  }

  /** No "{," in the intended result. */
  lemma RemovedNoOpenBraceComma()
    ensures FirstIndex(ScaleRemoved, "{,") == None
  {
    RemovedNoOpenBraceCommaSkipped();
    RemovedNoOpenBraceCommaEnds();
    SkipRange(ScaleRemoved, "{,", 0, 12);
  }

  lemma RemovedNoOpenBraceCommaSkipped()
    ensures forall m :: 0 <= m < 12 ==> ScaleRemoved[m] != "{,"[0] || ScaleRemoved[m + 1] != "{,"[1]
  {
  }

  lemma RemovedNoOpenBraceCommaEnds()
    ensures FirstIndexFrom(ScaleRemoved, "{,", 12) == None
  {
  }

  /** No ",}" in the intended result. */
  lemma RemovedNoTrailingComma()
    ensures FirstIndex(ScaleRemoved, ",}") == None
  {
    RemovedNoTrailingCommaSkipped();
    RemovedNoTrailingCommaEnds();
    SkipRange(ScaleRemoved, ",}", 0, 12);
  }

  lemma RemovedNoTrailingCommaSkipped()
    ensures forall m :: 0 <= m < 12 ==> ScaleRemoved[m] != ",}"[0] || ScaleRemoved[m + 1] != ",}"[1]
  {
  }

  lemma RemovedNoTrailingCommaEnds()
    ensures FirstIndexFrom(ScaleRemoved, ",}", 12) == None
  {
  }

  /** The first replacement of `removeProperty`. */
  lemma ScaleDeletion()
    ensures ReplaceFirst(NodeWithCommaName, DefaultScalePattern, "") == ScaleDeleted
  {
    ScaleFound();
    ReplaceAt(NodeWithCommaName, DefaultScalePattern, "", 13);
    assert NodeWithCommaName[..13] == NameOpen + ",,\",";
    assert NodeWithCommaName[28..] == "}";
  }

  /** The second replacement of `removeProperty`. */
  lemma CommaPairCollapse()
    ensures ReplaceFirst(ScaleDeleted, ",,", ",") == NameCollapsed
  {
    CommaPairInName();
    ReplaceAt(ScaleDeleted, ",,", ",", 9);
    assert ScaleDeleted[..9] == NameOpen;
    assert ScaleDeleted[11..] == "\",}";
  }

  /** Sanitising drops only the trailing comma. */
  lemma CollapsedSanitized()
    ensures SanitizeJson(NameCollapsed) == NameCorrupted
  {
    CollapsedNoOpenBraceComma();
    CollapsedTrailingComma();
    ReplaceAt(NameCollapsed, ",}", "}", 11);
    assert NameCollapsed[..11] == NameOpen + ",\"";
    assert NameCollapsed[13..] == "";
  }

  /** The intended result needs no sanitising. */
  lemma RemovedSanitized()
    ensures SanitizeJson(ScaleRemoved) == ScaleRemoved
  {
    RemovedNoOpenBraceComma();
    RemovedNoTrailingComma();
  }

  /** The code as written deletes the default scale of `NodeWithCommaName`
      and then collapses the ",," inside its name, corrupting it. */
  lemma CommaPairInStringCorrupted()
    ensures SanitizeJson(RemoveProperty(DefaultScalePattern, NodeWithCommaName)) == NameCorrupted
    ensures NameCorrupted != ScaleRemoved
  {
    ScaleDeletion();
    CommaPairCollapse();
    CollapsedSanitized();
    assert |NameCorrupted| != |ScaleRemoved|;
  }

  /** The intended removal takes the scale and the comma before it. */
  lemma IntendedRemoval()
    ensures RemovePropertyIntended(DefaultScalePattern, NodeWithCommaName) == ScaleRemoved
  {
    var b := NodeWithCommaName;
    ScaleFound();
    assert b[12] == ',';
    assert b[..12] == NameOpen + ",,\"";
    assert b[28..] == "}";
  }

  /** The intended removal on the same Node takes the scale and its
      preceding comma and leaves the name alone. */
  lemma CommaPairInStringKept()
    ensures SanitizeJson(RemovePropertyIntended(DefaultScalePattern, NodeWithCommaName)) == ScaleRemoved
  {
    IntendedRemoval();
    RemovedSanitized();
  }
}
