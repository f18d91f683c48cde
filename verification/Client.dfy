/** The receiving client: what it can rebuild from frames in arrival order. */
module Client {
  import opened Values
  import opened MessageTable

  /** A seen-set client: apply each id above the cursor once, and keep the list sorted by id. */
  function SeenSet(frames: seq<Message>, cursor: int): seq<Message> {
    if frames == [] then []
    else
      var view := SeenSet(frames[..|frames| - 1], cursor);
      var m := frames[|frames| - 1];
      if m.id <= cursor || (exists n :: n in view && n.id == m.id) then view else Insert(view, m)
  }

  /** The highest id a high-water-mark client has reached. */
  function Mark(frames: seq<Message>, cursor: int): int {
    if frames == [] then cursor
    else
      var mark := Mark(frames[..|frames| - 1], cursor);
      if frames[|frames| - 1].id > mark then frames[|frames| - 1].id else mark
  }

  /** A high-water-mark client: apply a frame only if its id is above every id seen before. */
  function HighWater(frames: seq<Message>, cursor: int): seq<Message> {
    if frames == [] then []
    else
      var kept := HighWater(frames[..|frames| - 1], cursor);
      var m := frames[|frames| - 1];
      if m.id > Mark(frames[..|frames| - 1], cursor) then kept + [m] else kept
  }

  /** An id names one message. */
  ghost predicate IdsName(frames: seq<Message>) {
    forall m, n :: m in frames && n in frames && m.id == n.id ==> m == n
  }

  /** A frame whose id is new, above the cursor, and below one that already arrived. */
  predicate Late(frames: seq<Message>, cursor: int, j: nat)
    requires j < |frames|
  {
    && frames[j].id > cursor
    && frames[j] !in frames[..j]
    && exists i :: 0 <= i < j && frames[i].id > frames[j].id
  }

  /** In whatever order the frames arrive, the seen-set view is the sorted set of those above the cursor. */
  lemma {:induction false} SeenSetIsSorted(frames: seq<Message>, cursor: int)
    requires IdsName(frames)
    ensures Ascending(SeenSet(frames, cursor))
    ensures forall m :: m in SeenSet(frames, cursor) <==> m in frames && m.id > cursor
  {
    if frames != [] {
      var earlier, m := frames[..|frames| - 1], frames[|frames| - 1];
      assert frames == earlier + [m];
      SeenSetIsSorted(earlier, cursor);
      var view := SeenSet(earlier, cursor);
      if m.id > cursor {
        if exists n :: n in view && n.id == m.id {
          var n :| n in view && n.id == m.id;
          assert n in frames && m in frames;
        } else {
          InsertIsSorted(view, m);
        }
      }
    }
  }

  lemma InsertIsSorted(view: seq<Message>, m: Message)
    requires Ascending(view) && forall n :: n in view ==> n.id != m.id
    ensures Ascending(Insert(view, m)) && forall n :: n in Insert(view, m) <==> n in view || n == m
  {
    InsertMembers(view, m);
    InsertKeepsOrder(view, m);
  }

  lemma {:induction false} MarkIsMax(frames: seq<Message>, cursor: int)
    ensures Mark(frames, cursor) >= cursor
    ensures forall m :: m in frames ==> m.id <= Mark(frames, cursor)
    ensures Mark(frames, cursor) == cursor || exists i :: 0 <= i < |frames| && frames[i].id == Mark(frames, cursor)
  {
    if frames != [] {
      var earlier := frames[..|frames| - 1];
      MarkIsMax(earlier, cursor);
      assert frames == earlier + [frames[|frames| - 1]];
      if Mark(earlier, cursor) > cursor {
        var i :| 0 <= i < |earlier| && earlier[i].id == Mark(earlier, cursor);
        assert frames[i].id == Mark(earlier, cursor);
      }
    }
  }

  lemma {:induction false} HighWaterKeepsOnlyNew(frames: seq<Message>, cursor: int)
    ensures forall m :: m in HighWater(frames, cursor) ==> m in frames && m.id > cursor
  {
    if frames != [] {
      var earlier := frames[..|frames| - 1];
      HighWaterKeepsOnlyNew(earlier, cursor);
      MarkIsMax(earlier, cursor);
      assert frames == earlier + [frames[|frames| - 1]];
    }
  }

  ghost predicate KeepsAll(frames: seq<Message>, cursor: int) {
    forall m :: m in frames && m.id > cursor ==> m in HighWater(frames, cursor)
  }

  ghost predicate NoneLate(frames: seq<Message>, cursor: int) {
    forall j :: 0 <= j < |frames| ==> !Late(frames, cursor, j)
  }

  /** A high-water-mark client loses nothing exactly when no frame is late. */
  lemma {:induction false} HighWaterLosesLateFrames(frames: seq<Message>, cursor: int)
    requires IdsName(frames)
    ensures KeepsAll(frames, cursor) <==> NoneLate(frames, cursor)
  {
    if frames != [] {
      var earlier := frames[..|frames| - 1];
      assert forall m :: m in earlier ==> m in frames;
      HighWaterLosesLateFrames(earlier, cursor);
      KeepsAllBut(frames, cursor);
      NoneLateBut(frames, cursor);
      LastIsLate(frames, cursor);
    }
  }

  /** The last frame is lost exactly if it is new, above the cursor and not above the mark. */
  lemma KeepsAllBut(frames: seq<Message>, cursor: int)
    requires frames != []
    ensures var earlier, m := frames[..|frames| - 1], frames[|frames| - 1];
            KeepsAll(frames, cursor) <==>
              KeepsAll(earlier, cursor) && (m.id > cursor && m !in earlier ==> m.id > Mark(earlier, cursor))
  {
    var earlier, m := frames[..|frames| - 1], frames[|frames| - 1];
    var kept := HighWater(earlier, cursor);
    assert frames == earlier + [m];
    HighWaterKeepsOnlyNew(earlier, cursor);
    MarkIsMax(earlier, cursor);
    if m.id > Mark(earlier, cursor) {
      assert HighWater(frames, cursor) == kept + [m];
      assert m !in earlier;
    } else {
      assert HighWater(frames, cursor) == kept;
    }
  }

  lemma NoneLateBut(frames: seq<Message>, cursor: int)
    requires frames != []
    ensures NoneLate(frames, cursor) <==> NoneLate(frames[..|frames| - 1], cursor) && !Late(frames, cursor, |frames| - 1)
  {
    var n := |frames| - 1;
    forall j | 0 <= j < n ensures Late(frames, cursor, j) <==> Late(frames[..n], cursor, j) {
      assert frames[..n][..j] == frames[..j];
    }
  }

  lemma LastIsLate(frames: seq<Message>, cursor: int)
    requires frames != [] && IdsName(frames)
    ensures var earlier, m := frames[..|frames| - 1], frames[|frames| - 1];
            Late(frames, cursor, |frames| - 1) <==> m.id > cursor && m !in earlier && m.id <= Mark(earlier, cursor)
  {
    var n := |frames| - 1;
    var earlier, m := frames[..n], frames[n];
    MarkIsMax(earlier, cursor);
    if m.id > cursor && m !in earlier && m.id <= Mark(earlier, cursor) {
      var i :| 0 <= i < n && earlier[i].id == Mark(earlier, cursor);
      assert frames[i] == earlier[i] && earlier[i] in earlier && frames[i] in frames && m in frames;
    }
    if Late(frames, cursor, n) {
      var i :| 0 <= i < n && frames[i].id > m.id;
      assert earlier[i] == frames[i] && earlier[i] in earlier;
    }
  }
}
