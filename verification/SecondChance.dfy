/** Choosing the frame to evict (vm/frame.c, policy SECOND_CHANCE). */
module SecondChance {
  import opened Basics
  import opened Pagedir
  import opened PagingState

  /** pick_frame_to_evict(): the list position is reset in every round, so only the
      first frame is ever considered.  It is chosen if it is not pinned, its accessed
      bit in the current page directory being cleared if it was set; otherwise the
      kernel panics, after as many rounds as there are frames and one more. */
  method PickFrameToEvict(queue: seq<Word>, frames: map<Word, Frame>, pagedir: PageDirectory) returns (r: Option<Word>)
    requires pagedir.Valid() && forall k :: k in queue ==> k in frames && frames[k].vpage.page < USER_PAGES
    modifies pagedir.memory, pagedir.pd
    ensures pagedir.Valid()
    ensures r == if queue != [] && !frames[queue[0]].pinned then Some(queue[0]) else None
    ensures pagedir.View() ==
            if r.Some? then FlatSetAccessed(old(pagedir.View()), frames[r.value].vpage.page, false)
              else old(pagedir.View())
  {
    var n := |queue|;
    if n == 0 { return None; }
    ghost var was := pagedir.View();
    var e := queue[0];
    var page := frames[e].vpage.page;
    for it := 0 to n + 1
      invariant pagedir.Valid()
      invariant frames[e].pinned ==> pagedir.View() == was
      invariant !frames[e].pinned && it == 0 ==> pagedir.View() == was
      invariant !frames[e].pinned && it > 0 ==> it == 1 && pagedir.View() == FlatSetAccessed(was, page, false)
    {
      if !frames[e].pinned {
        var accessed := pagedir.IsAccessed(page);
        if !accessed { return Some(e); }
        pagedir.SetAccessed(page, false);
      }
    }
    return None;
  }
}
