/**
 * Reconciliation of a fetched page of messages with the conversation's
 * working set (`mergeMessages` and the fetch stability check in
 * ChatDetailView).
 */
module Reconcile {
  import opened Seqs
  import opened Messages
  import opened Ordering

  /**
   * JavaScript `===` on `mediaUrl`. Strings compare by value; an array of URLs
   * is compared by reference, and the incoming page is freshly decoded, so an
   * array never equals anything held by a placeholder.
   */
  predicate SameMedia(a: Media, b: Media)
  {
    match (a, b)
    case (NoMedia, NoMedia) => true
    case (Url(x), Url(y)) => x == y
    case _ => false
  }

  /**
   * Incoming message `n` stands for placeholder `t`: its (truthy) `clientId` is
   * the placeholder's id, or text, sender and type agree, with the same media
   * for images.
   */
  predicate Supersedes(n: Message, t: Message)
  {
    || (Truthy(n.clientId) && n.clientId.value == t.id)
    || (&& n.text == t.text
        && n.senderId == t.senderId
        && n.kind == t.kind
        && (n.kind != Image || SameMedia(n.mediaUrl, t.mediaUrl)))
  }

  /** `newMsgs.find(n => ...)` finds a match for `t`. */
  predicate Superseded(t: Message, incoming: seq<Message>)
  {
    exists n :: n in incoming && Supersedes(n, t)
  }

  function Unsuperseded(incoming: seq<Message>): Message -> bool
  {
    (t: Message) => !Superseded(t, incoming)
  }

  /** The placeholders of the working set, in order. */
  function Temps(s: seq<Message>): (r: seq<Message>)
    ensures forall m :: m in r <==> m in s && IsTemp(m)
  {
    Filter(s, IsTemp)
  }

  /** `activeTemps`: the placeholders no incoming message stands for. */
  function Survivors(current: seq<Message>, incoming: seq<Message>): (r: seq<Message>)
    ensures forall t :: t in r <==> t in current && IsTemp(t) && !Superseded(t, incoming)
  {
    Filter(Temps(current), Unsuperseded(incoming))
  }

  /**
   * `mergeMessages(current, newMsgs)`: surviving placeholders, then the page,
   * stably sorted newest first, minus tombstoned ids.
   */
  function MergeMessages(current: seq<Message>, incoming: seq<Message>, deleted: seq<string>): seq<Message>
  {
    WithoutIds(SortNewestFirst(Survivors(current, incoming) + incoming), deleted)
  }

  /** The merge is newest first and holds no tombstoned id. */
  lemma MergeOrdered(current: seq<Message>, incoming: seq<Message>, deleted: seq<string>)
    ensures NewestFirst(MergeMessages(current, incoming, deleted))
    ensures forall m :: m in MergeMessages(current, incoming, deleted) ==> m.id !in deleted
  {
    var combined := Survivors(current, incoming) + incoming;
    SortCorrect(combined);
    FilterNewestFirst(SortNewestFirst(combined), IdNotIn(deleted));
  }

  /**
   * No entry is lost or duplicated: the merge holds each live surviving
   * placeholder and each live page entry exactly as often as it occurs there.
   */
  lemma MergeCounts(current: seq<Message>, incoming: seq<Message>, deleted: seq<string>)
    ensures multiset(MergeMessages(current, incoming, deleted))
         == multiset(WithoutIds(Survivors(current, incoming), deleted))
            + multiset(WithoutIds(incoming, deleted))
  {
    var s := Survivors(current, incoming);
    var combined := s + incoming;
    SortCorrect(combined);
    FilterMultiset(SortNewestFirst(combined), combined, IdNotIn(deleted));
    FilterConcat(s, incoming, IdNotIn(deleted));
  }

  /**
   * Only the page and the unmatched placeholders reach the merge: confirmed
   * entries of `current` are not carried over.
   */
  lemma MergeOrigin(current: seq<Message>, incoming: seq<Message>, deleted: seq<string>)
    ensures forall m :: m in MergeMessages(current, incoming, deleted) ==>
      m in incoming || (m in current && IsTemp(m) && !Superseded(m, incoming))
  {
    var s := Survivors(current, incoming);
    MergeCounts(current, incoming, deleted);
    forall m | m in MergeMessages(current, incoming, deleted)
      ensures m in incoming || (m in current && IsTemp(m) && !Superseded(m, incoming))
    {
      assert m in multiset(MergeMessages(current, incoming, deleted));
      assert m in multiset(WithoutIds(s, deleted)) || m in multiset(WithoutIds(incoming, deleted));
    }
  }

  /**
   * Placeholder resolution: a placeholder of the working set that is not itself
   * on the page reaches the merge exactly when no page entry stands for it and
   * its id is not tombstoned.
   */
  lemma PlaceholderResolution(current: seq<Message>, incoming: seq<Message>, deleted: seq<string>, t: Message)
    requires t in current && IsTemp(t) && t !in incoming
    ensures t in MergeMessages(current, incoming, deleted) <==> !Superseded(t, incoming) && t.id !in deleted
  {
    var s := Survivors(current, incoming);
    MergeCounts(current, incoming, deleted);
    assert t in MergeMessages(current, incoming, deleted) <==> t in multiset(MergeMessages(current, incoming, deleted));
    assert t !in multiset(WithoutIds(incoming, deleted));
    assert t in WithoutIds(s, deleted) <==> t in multiset(WithoutIds(s, deleted));
  }

  /**
   * Every page entry that is neither tombstoned nor a placeholder appears in
   * the merge exactly as often as on the page.
   */
  lemma PageEntriesKept(current: seq<Message>, incoming: seq<Message>, deleted: seq<string>, n: Message)
    requires n in incoming && n.id !in deleted && !IsTemp(n)
    ensures multiset(MergeMessages(current, incoming, deleted))[n] == multiset(incoming)[n]
  {
    var s := Survivors(current, incoming);
    MergeCounts(current, incoming, deleted);
    assert n !in WithoutIds(s, deleted);
    FilterCount(incoming, IdNotIn(deleted), n);
  }

  /**
   * The sort is stable: among equal timestamps the merge keeps the surviving
   * placeholders first and then the page, each in its own order.
   */
  lemma MergeStable(current: seq<Message>, incoming: seq<Message>, deleted: seq<string>, t: int)
    ensures AtTime(MergeMessages(current, incoming, deleted), t)
         == WithoutIds(AtTime(Survivors(current, incoming), t), deleted)
            + WithoutIds(AtTime(incoming, t), deleted)
  {
    var s := Survivors(current, incoming);
    var combined := s + incoming;
    var sorted := SortNewestFirst(combined);
    calc {
      AtTime(MergeMessages(current, incoming, deleted), t);
      Filter(Filter(sorted, IdNotIn(deleted)), HasTime(t));
      { FilterCommute(sorted, IdNotIn(deleted), HasTime(t)); }
      WithoutIds(AtTime(sorted, t), deleted);
      { SortCorrect(combined); }
      WithoutIds(AtTime(combined, t), deleted);
      { FilterConcat(s, incoming, HasTime(t)); }
      WithoutIds(AtTime(s, t) + AtTime(incoming, t), deleted);
      { FilterConcat(AtTime(s, t), AtTime(incoming, t), IdNotIn(deleted)); }
      WithoutIds(AtTime(s, t), deleted) + WithoutIds(AtTime(incoming, t), deleted);
    }
  }

  /** Filtering the tombstones before sorting gives the same list as after. */
  lemma MergeIsSortOfLive(current: seq<Message>, incoming: seq<Message>, deleted: seq<string>)
    ensures MergeMessages(current, incoming, deleted)
         == SortNewestFirst(WithoutIds(Survivors(current, incoming) + incoming, deleted))
  {
    var s := Survivors(current, incoming);
    MergeOrdered(current, incoming, deleted);
    forall t ensures AtTime(MergeMessages(current, incoming, deleted), t)
                  == AtTime(WithoutIds(s + incoming, deleted), t)
    {
      MergeStable(current, incoming, deleted, t);
      FilterCommute(s + incoming, IdNotIn(deleted), HasTime(t));
      FilterConcat(s, incoming, HasTime(t));
      FilterConcat(AtTime(s, t), AtTime(incoming, t), IdNotIn(deleted));
    }
    SortUnique(WithoutIds(s + incoming, deleted), MergeMessages(current, incoming, deleted));
  }

  /**
   * Merging the same page twice gives the same list as merging it once, as
   * long as the server issues no placeholder ids.
   */
  lemma MergeIdempotent(current: seq<Message>, incoming: seq<Message>, deleted: seq<string>)
    requires forall n :: n in incoming ==> !IsTemp(n)
    ensures MergeMessages(MergeMessages(current, incoming, deleted), incoming, deleted)
         == MergeMessages(current, incoming, deleted)
  {
    var s := Survivors(current, incoming);
    var r := MergeMessages(current, incoming, deleted);
    var r2 := MergeMessages(r, incoming, deleted);
    var live := IdNotIn(deleted);
    MergeOrdered(current, incoming, deleted);
    MergeOrdered(r, incoming, deleted);
    MergeOrigin(current, incoming, deleted);
    // Every placeholder left in r survived the first merge, so it survives again.
    FilterAll(Temps(r), Unsuperseded(incoming));
    assert Survivors(r, incoming) == Temps(r);
    forall t ensures AtTime(r2, t) == AtTime(r, t) {
      MergeStable(current, incoming, deleted, t);
      MergeStable(r, incoming, deleted, t);
      calc {
        AtTime(Temps(r), t);
        { FilterCommute(r, IsTemp, HasTime(t)); }
        Temps(AtTime(r, t));
        Temps(WithoutIds(AtTime(s, t), deleted) + WithoutIds(AtTime(incoming, t), deleted));
        { FilterConcat(WithoutIds(AtTime(s, t), deleted), WithoutIds(AtTime(incoming, t), deleted), IsTemp);
          FilterAll(WithoutIds(AtTime(s, t), deleted), IsTemp);
          FilterNone(WithoutIds(AtTime(incoming, t), deleted), IsTemp); }
        WithoutIds(AtTime(s, t), deleted);
      }
      FilterIdempotent(AtTime(s, t), live);
    }
    StableOrderUnique(r2, r);
  }

  /**
   * The outcome of a fetch for the `localMessages` slot: keep the previous
   * list object (no re-render) or install a new one.
   */
  datatype SlotUpdate = Keep | Replace(list: seq<Message>)

  function Apply(prev: seq<Message>, u: SlotUpdate): seq<Message>
  {
    match u
    case Keep => prev
    case Replace(list) => list
  }

  /**
   * One fetch of `/user/messages/{chatId}`: tombstoned ids are dropped from the
   * page; the first (non-silent) fetch installs the page as it is, a silent
   * poll merges it; an unchanged result keeps the previous list.
   */
  function FetchUpdate(prev: seq<Message>, response: seq<Message>, deleted: seq<string>, silent: bool): (u: SlotUpdate)
    ensures !silent ==> Apply(prev, u) == WithoutIds(response, deleted)
    ensures silent ==> Apply(prev, u) == MergeMessages(prev, WithoutIds(response, deleted), deleted)
    ensures u.Keep? <==> Apply(prev, u) == prev
  {
    var data := WithoutIds(response, deleted);
    var merged := if silent then MergeMessages(prev, data, deleted) else data;
    if merged == prev then Keep else Replace(merged)
  }

  /**
   * Polling settles: once a silent poll has installed its result, a further
   * poll returning the same page keeps the list object.
   */
  lemma PollSettles(prev: seq<Message>, response: seq<Message>, deleted: seq<string>)
    requires forall n :: n in response ==> !IsTemp(n)
    ensures var once := Apply(prev, FetchUpdate(prev, response, deleted, true));
      FetchUpdate(once, response, deleted, true) == Keep
  {
    MergeIdempotent(prev, WithoutIds(response, deleted), deleted);
  }
}
