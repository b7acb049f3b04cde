/**
 * Chapter records of a MangaDex feed and the selection the downloader applies to one
 * page of them: a chapter-number range, a translation-group substring, and the skip of
 * an entry whose number equals that of the last entry kept.
 */
module Chapters {
  import opened Wrappers
  import opened Strings
  import opened Sequences
  import opened Manga

  datatype Chapter = Chapter(
    id: string,
    typ: string,
    volume: string,
    number: string,
    title: string,
    translatedLanguage: string,
    externalUrl: string,
    pages: int,
    relationships: seq<Relationship>)
  {
    /** The name of the first "scanlation_group" relationship, or "". */
    function Translator(): (t: string)
      ensures NoneOfType(relationships, "scanlation_group") ==> t == ""
      ensures forall i :: IsFirstOfType(relationships, "scanlation_group", i) ==> t == relationships[i].attributes.name
    {
      var i := FirstIndexOfType(relationships, "scanlation_group");
      if i < |relationships| then relationships[i].attributes.name else ""
    }

    /** The user name of the first "user" relationship, or "". */
    function UploadedBy(): (u: string)
      ensures NoneOfType(relationships, "user") ==> u == ""
      ensures forall i :: IsFirstOfType(relationships, "user", i) ==> u == relationships[i].attributes.username
    {
      var i := FirstIndexOfType(relationships, "user");
      if i < |relationships| then relationships[i].attributes.username else ""
    }

    /** The id of the first "manga" relationship, or "". */
    function MangaId(): (m: string)
      ensures NoneOfType(relationships, "manga") ==> m == ""
      ensures forall i :: IsFirstOfType(relationships, "manga", i) ==> m == relationships[i].id
    {
      var i := FirstIndexOfType(relationships, "manga");
      if i < |relationships| then relationships[i].id else ""
    }

    predicate IsTranslatedByGroup(group: string)
    {
      Contains(Translator(), group)
    }
  }

  /** A chapter together with where its page images are served from. */
  datatype ChapterFullInfo = ChapterFullInfo(
    info: Chapter,
    downloadBaseUrl: string,
    hashId: string,
    pngFiles: seq<string>,
    jpgFiles: seq<string>)

  predicate NoneOfType(rels: seq<Relationship>, t: string)
  {
    forall i :: 0 <= i < |rels| ==> rels[i].typ != t
  }

  /** `i` is the position of the first relationship of type `t`. */
  predicate IsFirstOfType(rels: seq<Relationship>, t: string, i: int)
  {
    0 <= i < |rels| && rels[i].typ == t && forall j :: 0 <= j < i ==> rels[j].typ != t
  }

  /** The position the Go scan stops at: the first relationship of type `t`, or |rels|. */
  function FirstIndexOfType(rels: seq<Relationship>, t: string): (i: nat)
    ensures i <= |rels|
    ensures forall j :: 0 <= j < i ==> rels[j].typ != t
    ensures i < |rels| ==> rels[i].typ == t
    decreases |rels|
  {
    if rels == [] then 0
    else if rels[0].typ == t then 0
    else 1 + FirstIndexOfType(rels[1..], t)
  }

  /** The number a chapter is compared with: Atoi of it, else Atoi of the part before "." in "a.b". */
  function RangeKey(number: string): (k: Option<int>)
    ensures Atoi(number).Some? ==> k == Atoi(number)
    ensures Atoi(number).None? && |Split(number, ".")| != 2 ==> k.None?
    ensures Atoi(number).None? && |Split(number, ".")| == 2 ==> k == Atoi(Split(number, ".")[0])
  {
    if Atoi(number).Some? then Atoi(number)
    else
      var parts := Split(number, ".");
      if |parts| != 2 then None else Atoi(parts[0])
  }

  /** A non-empty number that Atoi rejects: GetChapters counts it as an extra chapter. */
  predicate IsExtra(number: string)
  {
    number != "" && Atoi(number).None?
  }

  /** The filter of one GetChapters call (a range and a group) or of GetAllChapters (a group). */
  datatype Selection = InRange(lowest: int, highest: int, group: string) | AnyNumber(group: string)

  predicate Passes(sel: Selection, c: Chapter)
  {
    match sel
    case InRange(lowest, highest, group) =>
      c.number != "" && RangeKey(c.number).Some? && lowest <= RangeKey(c.number).value <= highest
      && c.IsTranslatedByGroup(group)
    case AnyNumber(group) => c.IsTranslatedByGroup(group)
  }

  /** The last entry kept so far has the number of `c`. */
  predicate RepeatsLast(found: seq<Chapter>, c: Chapter)
  {
    |found| > 0 && found[|found| - 1].number == c.number
  }

  /** What GetChapters and GetAllChapters keep of a page, read entry by entry. */
  function Selected(data: seq<Chapter>, sel: Selection): seq<Chapter>
    decreases |data|
  {
    if data == [] then []
    else
      var found := Selected(data[..|data| - 1], sel);
      var c := data[|data| - 1];
      if Passes(sel, c) && !RepeatsLast(found, c) then found + [c] else found
  }

  /** What the earlier GetChapters keeps of a page: every passing entry, repeats included. */
  function Filtered(data: seq<Chapter>, sel: Selection): seq<Chapter>
    decreases |data|
  {
    if data == [] then []
    else
      var c := data[|data| - 1];
      Filtered(data[..|data| - 1], sel) + (if Passes(sel, c) then [c] else [])
  }

  /** The number of extra chapters of a page. */
  function CountExtra(data: seq<Chapter>): nat
    decreases |data|
  {
    if data == [] then 0
    else CountExtra(data[..|data| - 1]) + (if IsExtra(data[|data| - 1].number) then 1 else 0)
  }

  /** One page of the chapter feed. */
  datatype ChapterList = ChapterList(data: seq<Chapter>)
  {
    /**
     * The entries whose number (or the integer part of an "a.b" number) lies in
     * [lowest, highest] and whose translator contains `group`, without an entry that
     * repeats the number of the last one kept; and the number of extra chapters.
     */
    method GetChapters(lowest: int, highest: int, group: string) returns (found: seq<Chapter>, extra: nat)
      ensures found == Selected(data, InRange(lowest, highest, group))
      ensures extra == CountExtra(data)
    {
      if |data| == 0 {
        return [], 0;
      }
      ghost var sel := InRange(lowest, highest, group);
      found := [];
      extra := 0;
      for i := 0 to |data|
        invariant found == Selected(data[..i], sel)
        invariant extra == CountExtra(data[..i])
      {
        assert data[..i + 1] == data[..i] + [data[i]];
        SelectedStep(data[..i], data[i], sel);
        CountExtraStep(data[..i], data[i]);
        found, extra := VisitChapter(found, extra, data[i], lowest, highest, group);
      }
      assert data[..|data|] == data;
    }

    /** The entries whose translator contains `group`, skipping one that repeats the last kept number. */
    method GetAllChapters(group: string) returns (found: seq<Chapter>)
      ensures found == Selected(data, AnyNumber(group))
    {
      found := [];
      for i := 0 to |data|
        invariant found == Selected(data[..i], AnyNumber(group))
      {
        var c := data[i];
        assert data[..i + 1] == data[..i] + [c];
        SelectedStep(data[..i], c, AnyNumber(group));
        if |found| != 0 {
          if found[|found| - 1].number == c.number {
            continue;
          }
        }
        if c.IsTranslatedByGroup(group) {
          found := found + [c];
        }
      }
      assert data[..|data|] == data;
    }
  }

  /**
   * One round of the GetChapters loop: an entry with an empty number is skipped; one whose
   * number Atoi accepts is kept when in range, matching and not a repeat; any other entry is
   * counted as extra and kept on the same terms when it is "a.b" with an integer `a`.
   */
  method VisitChapter(found: seq<Chapter>, extra: nat, chapter: Chapter, lowest: int, highest: int, group: string)
    returns (found': seq<Chapter>, extra': nat)
    ensures var sel := InRange(lowest, highest, group);
            found' == if Passes(sel, chapter) && !RepeatsLast(found, chapter) then found + [chapter] else found
    ensures extra' == extra + if IsExtra(chapter.number) then 1 else 0
  {
    found', extra' := found, extra;
    if chapter.number == "" {
      return;
    }
    var num := Atoi(chapter.number);
    if num.Some? {
      if num.value >= lowest && num.value <= highest && chapter.IsTranslatedByGroup(group) {
        if |found'| != 0 && found'[|found'| - 1].number == chapter.number {
          return;
        }
        found' := found' + [chapter];
      }
      return;
    }
    extra' := extra' + 1;
    var nums := Split(chapter.number, ".");
    if |nums| != 2 {
      return;
    }
    num := Atoi(nums[0]);
    if num.None? {
      return;
    }
    if num.value >= lowest && num.value <= highest && chapter.IsTranslatedByGroup(group) {
      if |found'| != 0 && found'[|found'| - 1].number == chapter.number {
        return;
      }
      found' := found' + [chapter];
    }
  }

  // Properties of the selection.

  /** An empty page selects nothing and counts nothing. */
  lemma EmptyPage(sel: Selection)
    ensures Selected([], sel) == [] && Filtered([], sel) == [] && CountExtra([]) == 0
  {
  }

  /** The entries kept come from the page, in page order. */
  lemma {:induction false} SelectedSubsequence(data: seq<Chapter>, sel: Selection)
    ensures IsSubsequence(Selected(data, sel), data)
    decreases |data|
  {
    if data != [] {
      var init := data[..|data| - 1];
      SelectedSubsequence(init, sel);
      assert data == init + [data[|data| - 1]];
      SubsequenceSnoc(Selected(init, sel), init, data[|data| - 1]);
    }
  }

  /** Every entry kept passes the filter. */
  lemma {:induction false} SelectedPass(data: seq<Chapter>, sel: Selection)
    ensures forall k :: 0 <= k < |Selected(data, sel)| ==> Passes(sel, Selected(data, sel)[k])
    decreases |data|
  {
    if data != [] {
      SelectedPass(data[..|data| - 1], sel);
    }
  }

  /** No two neighbouring kept entries carry the same number string. */
  lemma {:induction false} SelectedNoAdjacentRepeat(data: seq<Chapter>, sel: Selection)
    ensures forall k :: 0 < k < |Selected(data, sel)| ==> Selected(data, sel)[k - 1].number != Selected(data, sel)[k].number
    decreases |data|
  {
    if data != [] {
      SelectedNoAdjacentRepeat(data[..|data| - 1], sel);
    }
  }

  lemma CountExtraStep(data: seq<Chapter>, c: Chapter)
    ensures CountExtra(data + [c]) == CountExtra(data) + if IsExtra(c.number) then 1 else 0
  {
    assert (data + [c])[..|data|] == data;
  }

  /** A passing entry is dropped only when the last entry kept before it has its number. */
  lemma SelectedStep(data: seq<Chapter>, c: Chapter, sel: Selection)
    ensures Passes(sel, c) && !RepeatsLast(Selected(data, sel), c) ==> Selected(data + [c], sel) == Selected(data, sel) + [c]
    ensures !(Passes(sel, c) && !RepeatsLast(Selected(data, sel), c)) ==> Selected(data + [c], sel) == Selected(data, sel)
  {
    assert (data + [c])[..|data|] == data;
  }

  /** The earlier selection appends a passing entry and nothing else. */
  lemma FilteredStep(data: seq<Chapter>, c: Chapter, sel: Selection)
    ensures Passes(sel, c) ==> Filtered(data + [c], sel) == Filtered(data, sel) + [c]
    ensures !Passes(sel, c) ==> Filtered(data + [c], sel) == Filtered(data, sel)
  {
    assert (data + [c])[..|data|] == data;
  }

  /** Reading more entries never takes back an entry already kept. */
  lemma {:induction false} SelectedPrefix(a: seq<Chapter>, b: seq<Chapter>, sel: Selection)
    ensures HasPrefixSeq(Selected(a + b, sel), Selected(a, sel))
    decreases |b|
  {
    if b == [] {
      assert a + b == a;
    } else {
      var b', c := b[..|b| - 1], b[|b| - 1];
      SelectedPrefix(a, b', sel);
      assert a + b == (a + b') + [c];
      SelectedGrows(a + b', c, sel);
      HasPrefixTrans(Selected((a + b') + [c], sel), Selected(a + b', sel), Selected(a, sel));
    }
  }

  predicate HasPrefixSeq<T(==)>(s: seq<T>, p: seq<T>)
  {
    |p| <= |s| && s[..|p|] == p
  }

  /** One more entry keeps what was selected so far as a prefix. */
  lemma SelectedGrows(data: seq<Chapter>, c: Chapter, sel: Selection)
    ensures HasPrefixSeq(Selected(data + [c], sel), Selected(data, sel))
  {
    SelectedStep(data, c, sel);
    var s := Selected(data, sel);
    assert (s + [c])[..|s|] == s;
  }

  lemma HasPrefixTrans<T>(s: seq<T>, p: seq<T>, q: seq<T>)
    requires HasPrefixSeq(s, p) && HasPrefixSeq(p, q)
    ensures HasPrefixSeq(s, q)
  {
    assert s[..|q|] == s[..|p|][..|q|];
  }

  /** After a passing entry, the last entry kept carries its number. */
  lemma LastKeptHasNumber(data: seq<Chapter>, i: nat, sel: Selection)
    requires i < |data| && Passes(sel, data[i])
    ensures RepeatsLast(Selected(data[..i + 1], sel), data[i])
  {
    assert data[..i + 1] == data[..i] + [data[i]];
    SelectedStep(data[..i], data[i], sel);
  }

  /** What a prefix of the page selects is a prefix of what the whole page selects. */
  lemma SelectedPrefixOf(data: seq<Chapter>, n: nat, sel: Selection)
    requires n <= |data|
    ensures HasPrefixSeq(Selected(data, sel), Selected(data[..n], sel))
  {
    SelectedPrefix(data[..n], data[n..], sel);
    assert data[..n] + data[n..] == data;
  }

  /** Every number of a passing entry is the number of some kept entry. */
  lemma SelectedCoversNumbers(data: seq<Chapter>, sel: Selection, i: int)
    requires 0 <= i < |data| && Passes(sel, data[i])
    ensures exists k :: 0 <= k < |Selected(data, sel)| && Selected(data, sel)[k].number == data[i].number
  {
    LastKeptHasNumber(data, i, sel);
    SelectedPrefixOf(data, i + 1, sel);
    var upto, all := Selected(data[..i + 1], sel), Selected(data, sel);
    var k := |upto| - 1;
    assert all[k] == all[..|upto|][k] == upto[k];
  }

  /**
   * Repeats are only suppressed next to each other: the same number twice with another
   * number between them is kept both times.
   */
  lemma SeparatedRepeatSurvives(a: Chapter, b: Chapter, sel: Selection)
    requires Passes(sel, a) && Passes(sel, b) && a.number != b.number
    ensures Selected([a, b, a], sel) == [a, b, a]
  {
    SelectedStep([], a, sel);
    assert [] + [a] == [a];
    SelectedStep([a], b, sel);
    assert [a] + [b] == [a, b];
    SelectedStep([a, b], a, sel);
    assert [a, b] + [a] == [a, b, a];
  }

  /** The extra count of two pieces adds up. */
  lemma {:induction false} CountExtraConcat(a: seq<Chapter>, b: seq<Chapter>)
    ensures CountExtra(a + b) == CountExtra(a) + CountExtra(b)
    decreases |b|
  {
    if b == [] {
      assert a + b == a;
    } else {
      var b' := b[..|b| - 1];
      assert (a + b)[..|a + b| - 1] == a + b';
      CountExtraConcat(a, b');
    }
  }

  /** The extra count is the number of entries with a non-empty number that Atoi rejects. */
  lemma {:induction false} CountExtraIndices(data: seq<Chapter>)
    ensures CountExtra(data) == |ExtraIndices(data)|
    decreases |data|
  {
    if data != [] {
      var n := |data| - 1;
      var init := data[..n];
      CountExtraIndices(init);
      ExtraIndicesSnoc(data);
    }
  }

  /** The positions of the extra chapters. */
  function ExtraIndices(data: seq<Chapter>): set<int>
  {
    set i | 0 <= i < |data| && IsExtra(data[i].number)
  }

  lemma ExtraIndicesSnoc(data: seq<Chapter>)
    requires data != []
    ensures var n := |data| - 1;
            |ExtraIndices(data)| == |ExtraIndices(data[..n])| + if IsExtra(data[n].number) then 1 else 0
  {
    var n := |data| - 1;
    var init := data[..n];
    assert ExtraIndices(data) == ExtraIndices(init) + (if IsExtra(data[n].number) then {n} else {});
    assert n !in ExtraIndices(init);
  }

  /** "abc" and "1.2.3" are extra chapters, yet neither is ever selected by a range. */
  lemma ExtraNeverInRange()
    ensures IsExtra("abc") && RangeKey("abc").None?
    ensures IsExtra("1.2.3") && RangeKey("1.2.3").None?
  {
    assert IsExtra("abc") && RangeKey("abc").None? by {
      assert !IsDigit("abc"[0]);
      assert "abc"[0] != '+' && "abc"[0] != '-';
      SplitWithoutSep("abc", ".");
    }
    assert IsExtra("1.2.3") && RangeKey("1.2.3").None? by {
      assert !IsDigit("1.2.3"[1]);
      assert "1.2.3"[0] != '+' && "1.2.3"[0] != '-';
      assert Join(["1", "2", "3"], ".") == "1.2.3";
      JoinSplit(["1", "2", "3"], ".");
    }
  }

  /** An "a.b" number is an extra chapter and is compared by its integer part. */
  lemma FractionalNumberUsesIntegerPart()
    ensures IsExtra("10.5") && RangeKey("10.5") == Some(10)
  {
    assert !IsDigits("10.5") by {
      assert !IsDigit("10.5"[2]);
    }
    assert "10.5"[0] != '+' && "10.5"[0] != '-';
    assert Join(["10", "5"], ".") == "10.5";
    JoinSplit(["10", "5"], ".");
    assert IsDigits("10");
    assert DigitsValue("10") == 10 by {
      assert "10"[..1] == "1";
    }
  }

  /** Best-effort translation group matching: the empty group matches every chapter. */
  lemma EmptyGroupMatchesAll(c: Chapter)
    ensures c.IsTranslatedByGroup("")
  {
    ContainsTrivial(c.Translator());
  }

  // Properties of the earlier selection.

  lemma {:induction false} FilteredSubsequence(data: seq<Chapter>, sel: Selection)
    ensures IsSubsequence(Filtered(data, sel), data)
    decreases |data|
  {
    if data != [] {
      var init := data[..|data| - 1];
      var c := data[|data| - 1];
      FilteredSubsequence(init, sel);
      assert data == init + [c];
      SubsequenceSnoc(Filtered(init, sel), init, c);
      if !Passes(sel, c) {
        assert Filtered(data, sel) == Filtered(init, sel) + [];
        assert Filtered(init, sel) + [] == Filtered(init, sel);
      }
    }
  }

  /** The earlier selection keeps exactly the passing entries, repeats included. */
  lemma {:induction false} FilteredExactly(data: seq<Chapter>, sel: Selection)
    ensures forall k :: 0 <= k < |Filtered(data, sel)| ==> Passes(sel, Filtered(data, sel)[k])
    ensures forall c :: c in data && Passes(sel, c) ==> c in Filtered(data, sel)
    decreases |data|
  {
    if data != [] {
      var init := data[..|data| - 1];
      FilteredExactly(init, sel);
      assert data == init + [data[|data| - 1]];
    }
  }

  /** Whatever the current selection keeps, the earlier one keeps too, in the same order. */
  lemma {:induction false} SelectedWithinFiltered(data: seq<Chapter>, sel: Selection)
    ensures IsSubsequence(Selected(data, sel), Filtered(data, sel))
    decreases |data|
  {
    if data != [] {
      var init := data[..|data| - 1];
      var c := data[|data| - 1];
      SelectedWithinFiltered(init, sel);
      if Passes(sel, c) {
        SubsequenceSnoc(Selected(init, sel), Filtered(init, sel), c);
      } else {
        assert Filtered(init, sel) + [] == Filtered(init, sel);
      }
    }
  }

  /** Two equal-numbered passing neighbours: the earlier selection keeps both, the current one keeps one. */
  lemma AdjacentRepeatDropped(a: Chapter, b: Chapter, sel: Selection)
    requires Passes(sel, a) && Passes(sel, b) && a.number == b.number
    ensures Selected([a, b], sel) == [a] && Filtered([a, b], sel) == [a, b]
  {
    SelectedStep([], a, sel);
    assert [] + [a] == [a];
    SelectedStep([a], b, sel);
    assert [a] + [b] == [a, b];
    assert [a, b][..1] == [a];
    assert [a][..0] == [];
    assert Filtered([a], sel) == [a];
  }
}
