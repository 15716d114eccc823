/**
 * Optimistic overlays on the working set in ChatDetailView: the reaction
 * toggle, the server's reaction update and the local edit.
 */
module Overlays {
  import opened Seqs
  import opened Messages

  /** Most emoji keys a message may carry before a new emoji is refused. */
  const MaxEmojiKeys: nat := 2

  /** `reactions[emoji] || []` */
  function Users(r: Reactions, emoji: string): seq<string>
  {
    if emoji in r then r[emoji] else []
  }

  /** Adding `emoji` for a user who has not reacted with it is refused. */
  predicate Rejected(r: Reactions, emoji: string, user: string)
  {
    user !in Users(r, emoji) && |r| >= MaxEmojiKeys && emoji !in r
  }

  /**
   * The per-message step of `toggleReaction`: remove the user (dropping the
   * key once its list is empty) or append them, unless the message already
   * has two emoji keys and this emoji is not one of them.
   */
  function ToggleReactions(r: Reactions, emoji: string, user: string): Reactions
  {
    var users := Users(r, emoji);
    if Rejected(r, emoji, user) then r
    else if user in users then
      var rest := Without(users, user);
      if rest == [] then r - {emoji} else r[emoji := rest]
    else r[emoji := users + [user]]
  }

  /** `toggleReaction(msgId, emoji)` applied by the current user to the working set. */
  function ToggleReaction(s: seq<Message>, msgId: string, emoji: string, user: string): (r: seq<Message>)
    ensures |r| == |s|
    ensures forall i :: 0 <= i < |s| && s[i].id != msgId ==> r[i] == s[i]
    ensures forall i :: 0 <= i < |s| && s[i].id == msgId ==>
      r[i] == s[i].(reactions := ToggleReactions(s[i].reactions, emoji, user))
  {
    seq(|s|, i requires 0 <= i < |s| =>
      if s[i].id == msgId then s[i].(reactions := ToggleReactions(s[i].reactions, emoji, user)) else s[i])
  }

  /** No emoji key maps to an empty list of users. */
  predicate NoEmptyLists(r: Reactions)
  {
    forall e :: e in r ==> r[e] != []
  }

  /**
   * A toggle that is not refused flips the user's membership for `emoji`:
   * an added user goes to the end of the list, a removal keeps the other users
   * in order; every other emoji is left alone.
   */
  lemma ToggleFlips(r: Reactions, emoji: string, user: string)
    requires !Rejected(r, emoji, user)
    ensures user !in Users(r, emoji) ==> Users(ToggleReactions(r, emoji, user), emoji) == Users(r, emoji) + [user]
    ensures user in Users(r, emoji) ==> Users(ToggleReactions(r, emoji, user), emoji) == Without(Users(r, emoji), user)
    ensures user in Users(ToggleReactions(r, emoji, user), emoji) <==> user !in Users(r, emoji)
    ensures forall u :: u != user ==> (u in Users(ToggleReactions(r, emoji, user), emoji) <==> u in Users(r, emoji))
    ensures forall e :: e != emoji ==> Users(ToggleReactions(r, emoji, user), e) == Users(r, e)
    ensures forall e :: e != emoji ==> (e in ToggleReactions(r, emoji, user) <==> e in r)
  {
  }

  /** A refused toggle leaves the reactions as they were. */
  lemma ToggleRefused(r: Reactions, emoji: string, user: string)
    requires |r| >= MaxEmojiKeys && emoji !in r
    ensures ToggleReactions(r, emoji, user) == r
  {
  }

  lemma CardUpdate(r: Reactions, k: string, v: seq<string>)
    ensures |r[k := v]| == if k in r then |r| else |r| + 1
  {
    if k in r {
      assert r[k := v].Keys == r.Keys;
    } else {
      assert r[k := v].Keys == r.Keys + {k};
    }
  }

  lemma CardRemove(r: Reactions, k: string)
    requires k in r
    ensures |r - {k}| == |r| - 1
  {
    assert (r - {k}).Keys == r.Keys - {k};
  }

  /** Toggling never takes a message past two emoji keys. */
  lemma ToggleKeepsCap(r: Reactions, emoji: string, user: string)
    requires |r| <= MaxEmojiKeys
    ensures |ToggleReactions(r, emoji, user)| <= MaxEmojiKeys
  {
    var users := Users(r, emoji);
    if !Rejected(r, emoji, user) {
      if user in users {
        var rest := Without(users, user);
        if rest == [] {
          CardRemove(r, emoji);
        } else {
          CardUpdate(r, emoji, rest);
        }
      } else {
        CardUpdate(r, emoji, users + [user]);
      }
    }
  }

  /** Toggling keeps every emoji key backed by at least one user. */
  lemma ToggleKeepsListsNonEmpty(r: Reactions, emoji: string, user: string)
    requires NoEmptyLists(r)
    ensures NoEmptyLists(ToggleReactions(r, emoji, user))
  {
  }

  /**
   * Toggling the same emoji twice, from a state where the user has not reacted
   * with it and the add is allowed, restores the original reactions.
   */
  lemma ToggleTwiceRestores(r: Reactions, emoji: string, user: string)
    requires emoji in r ==> r[emoji] != []
    requires user !in Users(r, emoji) && !Rejected(r, emoji, user)
    ensures ToggleReactions(ToggleReactions(r, emoji, user), emoji, user) == r
  {
    var users := Users(r, emoji);
    var added := r[emoji := users + [user]];
    assert ToggleReactions(r, emoji, user) == added;
    WithoutAppended(users, user);
    ToggleRemovesAdded(r, emoji, user, users);
  }

  /** The second toggle of `ToggleTwiceRestores`: the user is taken out of the list they were appended to. */
  lemma ToggleRemovesAdded(r: Reactions, emoji: string, user: string, users: seq<string>)
    requires emoji in r ==> r[emoji] != []
    requires users == Users(r, emoji) && Without(users + [user], user) == users
    ensures ToggleReactions(r[emoji := users + [user]], emoji, user) == r
  {
    var added := r[emoji := users + [user]];
    assert Users(added, emoji) == users + [user];
    assert user in users + [user];
    if emoji in r {
      assert users != [];
      assert added[emoji := users] == r;
    } else {
      assert users == [];
      assert added - {emoji} == r;
    }
  }

  /**
   * `message_reaction_update` for the open conversation overwrites the
   * reactions of the matching entries with the server's map; an update for
   * another conversation is ignored.
   */
  function ReactionUpdate(s: seq<Message>, eventChat: string, openChat: string, msgId: string, reactions: Reactions): (r: seq<Message>)
    ensures |r| == |s|
    ensures forall i :: 0 <= i < |s| ==>
      r[i] == if eventChat == openChat && s[i].id == msgId then s[i].(reactions := reactions) else s[i]
  {
    if eventChat != openChat then s
    else seq(|s|, i requires 0 <= i < |s| => if s[i].id == msgId then s[i].(reactions := reactions) else s[i])
  }

  /** The server's reaction map wins over any local toggle made before it arrived. */
  lemma ServerReactionsWin(s: seq<Message>, openChat: string, msgId: string, emoji: string, user: string, reactions: Reactions)
    ensures ReactionUpdate(ToggleReaction(s, msgId, emoji, user), openChat, openChat, msgId, reactions)
         == ReactionUpdate(s, openChat, openChat, msgId, reactions)
  {
    var a := ReactionUpdate(ToggleReaction(s, msgId, emoji, user), openChat, openChat, msgId, reactions);
    var b := ReactionUpdate(s, openChat, openChat, msgId, reactions);
    assert |a| == |b|;
    forall i | 0 <= i < |a| ensures a[i] == b[i] {
    }
  }

  /** The optimistic edit in `handleSaveEdit`: new text and `isEdited` on the matching entries. */
  function SaveEdit(s: seq<Message>, msgId: string, newText: string): (r: seq<Message>)
    ensures |r| == |s|
    ensures forall i :: 0 <= i < |s| ==>
      r[i] == if s[i].id == msgId then s[i].(text := newText, isEdited := true) else s[i]
  {
    seq(|s|, i requires 0 <= i < |s| => if s[i].id == msgId then s[i].(text := newText, isEdited := true) else s[i])
  }

  /** Editing keeps the ids, order and length of the working set. */
  lemma SaveEditKeepsIds(s: seq<Message>, msgId: string, newText: string)
    ensures Ids(SaveEdit(s, msgId, newText)) == Ids(s)
  {
  }
}
