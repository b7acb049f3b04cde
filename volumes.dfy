/**
 * The volume listing the MangaDex aggregate endpoint returns: per volume, a map from
 * chapter number to the chapter's main id and the ids of its other uploads. The getters
 * of the Go structs are the datatype fields here.
 */
module Volumes {
  import opened Sequences

  datatype VolumeChapter = VolumeChapter(chapter: string, id: string, others: seq<string>, count: int)
  {
    /** The main id followed by the other ids, in their stored order. */
    function AllIds(): (ids: seq<string>)
      ensures |ids| == 1 + |others| && ids[0] == id
      ensures forall x :: x in ids <==> x == id || x in others
    {
      [id] + others
    }
  }

  datatype Volume = Volume(volume: string, count: int, chapters: map<string, VolumeChapter>)
  {
    /**
     * The ids of every chapter, each chapter's block being its `AllIds`; `order` is the
     * order in which the map loop visited the chapters.
     */
    method ChapterIds() returns (ids: seq<string>, ghost order: seq<string>)
      ensures IsEnumeration(order, chapters.Keys)
      ensures ids == Flatten(ValuesInOrder(IdBlocks(chapters), order))
    {
      ids := [];
      order := [];
      ghost var blocks := IdBlocks(chapters);
      var remaining := chapters.Keys;
      ghost var visited: set<string> := {};
      while remaining != {}
        invariant remaining == chapters.Keys - visited
        invariant PartialEnumeration(order, visited, chapters.Keys)
        invariant forall k :: k in order ==> k in blocks
        invariant ids == Flatten(ValuesInOrder(blocks, order))
        decreases |remaining|
      {
        var key :| key in remaining;
        var chapter := chapters[key];
        CollectStep(blocks, order, key, ids, chapter);
        ids := ids + [chapter.id];
        ids := ids + chapter.others;
        EnumerationVisit(order, visited, remaining, chapters.Keys, key);
        order := order + [key];
        visited := visited + {key};
        remaining := remaining - {key};
      }
      EnumerationDone(order, chapters.Keys);
    }
  }

  /** After the main id come the other ids, unchanged and in their stored order. */
  lemma AllIdsTail(c: VolumeChapter)
    ensures c.AllIds()[1..] == c.others
  {
  }

  /** Each chapter's block of ids. */
  function IdBlocks(chapters: map<string, VolumeChapter>): (m: map<string, seq<string>>)
    ensures m.Keys == chapters.Keys
    ensures forall k :: k in chapters ==> m[k] == [chapters[k].id] + chapters[k].others
  {
    map k | k in chapters :: [chapters[k].id] + chapters[k].others
  }

  /** Appending one chapter's main id and other ids extends the collection by its block. */
  lemma CollectStep(blocks: map<string, seq<string>>, order: seq<string>, key: string,
                    ids: seq<string>, c: VolumeChapter)
    requires key in blocks && blocks[key] == [c.id] + c.others && forall k :: k in order ==> k in blocks
    requires ids == Flatten(ValuesInOrder(blocks, order))
    ensures ids + [c.id] + c.others == Flatten(ValuesInOrder(blocks, order + [key]))
  {
    ValuesInOrderSnoc(blocks, order, key);
    FlattenSnoc(ValuesInOrder(blocks, order), blocks[key]);
  }

  lemma FlattenSnoc(xss: seq<seq<string>>, ys: seq<string>)
    ensures Flatten(xss + [ys]) == Flatten(xss) + ys
  {
    assert (xss + [ys])[..|xss|] == xss;
  }

  /** The number of ids of the chapters in `order`: one main id plus the others, each. */
  function IdCount(chapters: map<string, VolumeChapter>, order: seq<string>): nat
    requires forall k :: k in order ==> k in chapters
    decreases |order|
  {
    if order == [] then 0
    else IdCount(chapters, order[..|order| - 1]) + 1 + |chapters[order[|order| - 1]].others|
  }

  /** The collected ids number one plus the others per chapter visited. */
  lemma {:induction false} ChapterIdsLength(chapters: map<string, VolumeChapter>, order: seq<string>)
    requires forall k :: k in order ==> k in chapters
    ensures |Flatten(ValuesInOrder(IdBlocks(chapters), order))| == IdCount(chapters, order)
    decreases |order|
  {
    if order != [] {
      var init := order[..|order| - 1];
      var last := order[|order| - 1];
      assert order == init + [last];
      ValuesInOrderSnoc(IdBlocks(chapters), init, last);
      FlattenSnoc(ValuesInOrder(IdBlocks(chapters), init), IdBlocks(chapters)[last]);
      ChapterIdsLength(chapters, init);
    }
  }

  /**
   * The block of the `i`-th visited chapter sits, whole and in place, right after the
   * blocks of the chapters visited before it: its main id immediately followed by its other ids.
   */
  lemma ChapterBlockInPlace(chapters: map<string, VolumeChapter>, order: seq<string>, i: nat)
    requires i < |order| && forall k :: k in order ==> k in chapters
    ensures var ids := Flatten(ValuesInOrder(IdBlocks(chapters), order));
            var p := |Flatten(ValuesInOrder(IdBlocks(chapters), order[..i]))|;
            var c := chapters[order[i]];
            p + 1 + |c.others| <= |ids| && ids[p] == c.id && ids[p + 1..p + 1 + |c.others|] == c.others
  {
    var m := IdBlocks(chapters);
    var before, key, after := order[..i], order[i], order[i + 1..];
    var block := m[key];
    var vb, va := ValuesInOrder(m, before), ValuesInOrder(m, after);
    assert ValuesInOrder(m, order) == vb + [block] + va by {
      assert order == before + [key] + after;
      ValuesInOrderConcat(m, before + [key], after);
      ValuesInOrderSnoc(m, before, key);
    }
    assert Flatten(vb + [block] + va) == Flatten(vb) + block + Flatten(va) by {
      FlattenConcat(vb + [block], va);
      FlattenSnoc(vb, block);
    }
    BlockAt(Flatten(vb), block, Flatten(va), chapters[key]);
  }

  lemma BlockAt(xs: seq<string>, block: seq<string>, ys: seq<string>, c: VolumeChapter)
    requires block == [c.id] + c.others
    ensures var ids := xs + block + ys;
            |xs| + 1 + |c.others| <= |ids| && ids[|xs|] == c.id
            && ids[|xs| + 1..|xs| + 1 + |c.others|] == c.others
  {
    var ids := xs + block + ys;
    assert ids[|xs|..|xs| + |block|] == block;
  }

  /** An id is collected exactly when it is among some visited chapter's ids. */
  lemma {:induction false} ChapterIdsMembers(chapters: map<string, VolumeChapter>, order: seq<string>, x: string)
    requires forall k :: k in order ==> k in chapters
    ensures x in Flatten(ValuesInOrder(IdBlocks(chapters), order))
        <==> exists i :: 0 <= i < |order| && x in chapters[order[i]].AllIds()
    decreases |order|
  {
    if order != [] {
      var init := order[..|order| - 1];
      var last := order[|order| - 1];
      assert order == init + [last];
      ValuesInOrderSnoc(IdBlocks(chapters), init, last);
      FlattenSnoc(ValuesInOrder(IdBlocks(chapters), init), IdBlocks(chapters)[last]);
      ChapterIdsMembers(chapters, init, x);
      if x in Flatten(ValuesInOrder(IdBlocks(chapters), init)) {
        var i :| 0 <= i < |init| && x in chapters[init[i]].AllIds();
        assert order[i] == init[i];
      }
      if exists i :: 0 <= i < |order| && x in chapters[order[i]].AllIds() {
        var i :| 0 <= i < |order| && x in chapters[order[i]].AllIds();
        if i < |init| {
          assert init[i] == order[i];
        }
      }
    }
  }

  /**
   * Whatever order the map loop takes, the ids collected for a volume are the same
   * multiset, and every id of every chapter is among them.
   */
  lemma ChapterIdsOrderIrrelevant(v: Volume, o1: seq<string>, o2: seq<string>)
    requires IsEnumeration(o1, v.chapters.Keys) && IsEnumeration(o2, v.chapters.Keys)
    ensures multiset(Flatten(ValuesInOrder(IdBlocks(v.chapters), o1)))
         == multiset(Flatten(ValuesInOrder(IdBlocks(v.chapters), o2)))
    ensures forall k, x :: k in v.chapters && x in v.chapters[k].AllIds()
              ==> x in Flatten(ValuesInOrder(IdBlocks(v.chapters), o1))
  {
    EnumerationOrderIrrelevant(IdBlocks(v.chapters), o1, o2, v.chapters.Keys);
    forall k, x | k in v.chapters && x in v.chapters[k].AllIds()
      ensures x in Flatten(ValuesInOrder(IdBlocks(v.chapters), o1))
    {
      var i :| 0 <= i < |o1| && o1[i] == k;
      ChapterIdsMembers(v.chapters, o1, x);
    }
  }
}
