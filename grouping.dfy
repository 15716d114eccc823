/**
 * The display projection `displayMessages` of ChatDetailView: runs of image
 * messages from one sender, sent within a minute of the run's first image,
 * are shown as one synthetic `image_grid` entry.
 */
module Grouping {
  import opened Messages

  /** Width of the grouping window in milliseconds. */
  const GroupWindow: int := 60000

  /**
   * One row of the rendered list: a message as it is, or a synthetic grid
   * entry (`{...first, type: 'image_grid', images, id: 'grid-' + first.id}`)
   * with its member images.
   */
  datatype DisplayItem = Single(msg: Message) | Grid(entry: Message, images: seq<Message>)

  function Abs(x: int): nat
  {
    if x < 0 then -x else x
  }

  /** The synthetic record a grid is rendered with. */
  function GridEntry(first: Message): Message
  {
    first.(kind := ImageGrid, id := GridPrefix + first.id)
  }

  /**
   * `next` may join the group opened by `first`: an image from the same sender
   * less than a minute from `first` (not from its neighbour).
   */
  predicate Joins(first: Message, next: Message)
  {
    && next.kind == Image
    && next.senderId == first.senderId
    && Abs(first.timestamp - next.timestamp) < GroupWindow
  }

  /** How many leading entries of `rest` join `first`: the inner loop's reach. */
  function RunLength(first: Message, rest: seq<Message>): (n: nat)
    ensures n <= |rest|
    ensures forall k :: 0 <= k < n ==> Joins(first, rest[k])
    ensures n < |rest| ==> !Joins(first, rest[n])
  {
    if rest == [] || !Joins(first, rest[0]) then 0 else 1 + RunLength(first, rest[1..])
  }

  /** How many entries of `s` the first display row takes. */
  function RowSpan(s: seq<Message>): (n: nat)
    requires s != []
    ensures 1 <= n <= |s|
  {
    if s[0].kind == Image then 1 + RunLength(s[0], s[1..]) else 1
  }

  /** The first display row: a grid when the run has two or more images. */
  function FirstRow(s: seq<Message>): DisplayItem
    requires s != []
  {
    if RowSpan(s) > 1 then Grid(GridEntry(s[0]), s[..RowSpan(s)]) else Single(s[0])
  }

  /** The grouping, one display row at a time. */
  function Group(s: seq<Message>): seq<DisplayItem>
    decreases |s|
  {
    if s == [] then [] else [FirstRow(s)] + Group(s[RowSpan(s)..])
  }

  /** The working-set entries a row stands for. */
  function Members(d: DisplayItem): seq<Message>
  {
    match d
    case Single(m) => [m]
    case Grid(_, images) => images
  }

  /** Replaces each grid row by its images. */
  function Flatten(ds: seq<DisplayItem>): seq<Message>
  {
    if ds == [] then [] else Members(ds[0]) + Flatten(ds[1..])
  }

  /** A grid has at least two images, all joining the first, and the first's synthetic record. */
  predicate WellFormedRow(d: DisplayItem)
  {
    d.Grid? ==>
      && |d.images| >= 2
      && d.entry == GridEntry(d.images[0])
      && forall k :: 0 <= k < |d.images| ==> Joins(d.images[0], d.images[k])
  }

  /** The first working-set entry of a row. */
  function Lead(d: DisplayItem): Message
    requires WellFormedRow(d)
  {
    match d
    case Single(m) => m
    case Grid(_, images) => images[0]
  }

  /**
   * The inner loop of `displayMessages`: from the image at `i`, collects the
   * following entries while they join it, stopping at the first that does not.
   */
  method ImageRun(localMessages: seq<Message>, i: nat) returns (group: seq<Message>, j: nat)
    requires i < |localMessages| && localMessages[i].kind == Image
    ensures i < j <= |localMessages| && group == localMessages[i..j]
    ensures forall k :: i < k < j ==> Joins(localMessages[i], localMessages[k])
    ensures j < |localMessages| ==> !Joins(localMessages[i], localMessages[j])
  {
    var msg := localMessages[i];
    group := [msg];
    j := i + 1;
    while j < |localMessages|
      invariant i < j <= |localMessages|
      invariant group == localMessages[i..j]
      invariant forall k :: i < k < j ==> Joins(msg, localMessages[k])
      decreases |localMessages| - j
    {
      var next := localMessages[j];
      var timeDiff := Abs(msg.timestamp - next.timestamp);
      if next.kind == Image && next.senderId == msg.senderId && timeDiff < GroupWindow {
        group := group + [next];
        j := j + 1;
      } else {
        break;
      }
    }
  }

  /** `displayMessages`: the outer `while` loop over `localMessages`. */
  method DisplayMessages(localMessages: seq<Message>) returns (result: seq<DisplayItem>)
    ensures result == Group(localMessages)
  {
    result := [];
    var i := 0;
    while i < |localMessages|
      invariant 0 <= i <= |localMessages|
      invariant result + Group(localMessages[i..]) == Group(localMessages)
      decreases |localMessages| - i
    {
      var msg := localMessages[i];
      var row: DisplayItem;
      var next: nat;
      if msg.kind == Image {
        var group, j := ImageRun(localMessages, i);
        RunSpan(localMessages, i, j);
        if |group| > 1 {
          row, next := Grid(GridEntry(msg), group), j;
        } else {
          row, next := Single(msg), i + 1;
        }
      } else {
        PlainRow(localMessages, i);
        row, next := Single(msg), i + 1;
      }
      GroupStep(localMessages, i, result, row, next, Group(localMessages));
      result := result + [row];
      i := next;
    }
  }

  /** A non-image entry is a row of its own. */
  lemma PlainRow(s: seq<Message>, i: nat)
    requires i < |s| && s[i].kind != Image
    ensures RowSpan(s[i..]) == 1 && FirstRow(s[i..]) == Single(s[i])
  {
  }

  /** One pass of the outer loop appends the first row of what is left. */
  lemma GroupStep(s: seq<Message>, i: nat, result: seq<DisplayItem>, row: DisplayItem, next: nat, total: seq<DisplayItem>)
    requires i < |s|
    requires result + Group(s[i..]) == total
    requires row == FirstRow(s[i..]) && next == i + RowSpan(s[i..])
    ensures next <= |s|
    ensures (result + [row]) + Group(s[next..]) == total
  {
    var rest := s[i..];
    SliceOfSlice(s, i, RowSpan(rest));
    AppendRow(rest, s[next..], result, total, row);
  }

  /** A suffix of a suffix. */
  lemma SliceOfSlice(s: seq<Message>, i: nat, n: nat)
    requires i + n <= |s|
    ensures s[i..][n..] == s[i + n..]
  {
  }

  /** Appending the first row of `rest` leaves the grouping of what follows it. */
  lemma AppendRow(rest: seq<Message>, tail: seq<Message>, result: seq<DisplayItem>, total: seq<DisplayItem>, row: DisplayItem)
    requires rest != []
    requires result + Group(rest) == total
    requires row == FirstRow(rest) && tail == rest[RowSpan(rest)..]
    ensures (result + [row]) + Group(tail) == total
  {
    GroupUnfold(rest);
    assert (result + [row]) + Group(tail) == result + ([row] + Group(tail));
  }

  lemma GroupUnfold(s: seq<Message>)
    requires s != []
    ensures Group(s) == [FirstRow(s)] + Group(s[RowSpan(s)..])
  {
  }

  /** The inner loop stops exactly where the first row of `s[i..]` ends. */
  lemma RunSpan(s: seq<Message>, i: nat, j: nat)
    requires i < j <= |s| && s[i].kind == Image
    requires forall k :: i < k < j ==> Joins(s[i], s[k])
    requires j < |s| ==> !Joins(s[i], s[j])
    ensures RowSpan(s[i..]) == j - i
    ensures FirstRow(s[i..]) == if j - i > 1 then Grid(GridEntry(s[i]), s[i..j]) else Single(s[i])
  {
    assert s[i..][1..] == s[i + 1..];
    RunLengthExact(s[i], s[i + 1..], j - i - 1);
    assert s[i..][..j - i] == s[i..j];
  }

  /** The run length is the first position that does not join. */
  lemma {:induction false} RunLengthExact(first: Message, rest: seq<Message>, n: nat)
    requires n <= |rest|
    requires forall k :: 0 <= k < n ==> Joins(first, rest[k])
    requires n < |rest| ==> !Joins(first, rest[n])
    ensures RunLength(first, rest) == n
    decreases n
  {
    if n > 0 {
      RunLengthExact(first, rest[1..], n - 1);
    }
  }

  lemma {:induction false} FlattenConcat(a: seq<DisplayItem>, b: seq<DisplayItem>)
    ensures Flatten(a + b) == Flatten(a) + Flatten(b)
    decreases |a|
  {
    if a == [] {
      assert a + b == b;
    } else {
      assert (a + b)[0] == a[0];
      assert (a + b)[1..] == a[1..] + b;
      FlattenConcat(a[1..], b);
    }
  }

  /** Grouping is lossless: flattening the rows gives back the working set, in order. */
  lemma {:induction false} GroupLossless(s: seq<Message>)
    ensures Flatten(Group(s)) == s
    decreases |s|
  {
    if s != [] {
      var n := RowSpan(s);
      GroupLossless(s[n..]);
      GroupUnfold(s);
      FirstRowMembers(s);
      LosslessStep(FirstRow(s), Group(s[n..]), s[..n], s[n..]);
      assert s[..n] + s[n..] == s;
    }
  }

  /** A row standing for `head` in front of rows flattening to `rest` flattens to `head + rest`. */
  lemma LosslessStep(row: DisplayItem, tail: seq<DisplayItem>, head: seq<Message>, rest: seq<Message>)
    requires Members(row) == head && Flatten(tail) == rest
    ensures Flatten([row] + tail) == head + rest
  {
    FlattenConcat([row], tail);
    FlattenSingle(row);
  }

  lemma FlattenSingle(d: DisplayItem)
    ensures Flatten([d]) == Members(d)
  {
    assert [d][1..] == [];
  }

  /** The first row stands for exactly the entries it spans. */
  lemma FirstRowMembers(s: seq<Message>)
    requires s != []
    ensures Members(FirstRow(s)) == s[..RowSpan(s)]
  {
    if RowSpan(s) == 1 {
      assert s[..1] == [s[0]];
    }
  }

  lemma FirstRowWellFormed(s: seq<Message>)
    requires s != []
    ensures WellFormedRow(FirstRow(s))
  {
    var n := RowSpan(s);
    if n > 1 {
      forall k | 0 <= k < n ensures Joins(s[0], s[..n][k]) {
        if k > 0 {
          assert s[..n][k] == s[1..][k - 1];
        }
      }
    }
  }

  /**
   * Every grid has two or more images, the id `grid-` + its first image's id,
   * and only images from the first image's sender within a minute of it.
   */
  lemma {:induction false} GroupRowsWellFormed(s: seq<Message>)
    ensures forall d :: d in Group(s) ==> WellFormedRow(d)
    decreases |s|
  {
    if s != [] {
      FirstRowWellFormed(s);
      GroupRowsWellFormed(s[RowSpan(s)..]);
    }
  }

  /**
   * Runs are maximal: the row after a grid or a single image starts with an
   * entry that could not have joined it, so the next image more than a minute
   * after the run's first, or from another sender, opens a new row.
   */
  lemma {:induction false} GroupMaximal(s: seq<Message>, k: nat)
    requires k + 1 < |Group(s)|
    ensures WellFormedRow(Group(s)[k]) && WellFormedRow(Group(s)[k + 1])
    ensures Lead(Group(s)[k]).kind == Image ==> !Joins(Lead(Group(s)[k]), Lead(Group(s)[k + 1]))
    decreases |s|
  {
    var n := RowSpan(s);
    var rest := s[n..];
    assert Group(s) == [FirstRow(s)] + Group(rest);
    assert rest != [];
    assert Group(rest) == [FirstRow(rest)] + Group(rest[RowSpan(rest)..]);
    if k == 0 {
      FirstRowWellFormed(s);
      FirstRowWellFormed(rest);
      assert Lead(FirstRow(s)) == s[0];
      assert Lead(FirstRow(rest)) == rest[0] == s[n];
      assert s[n] == s[1..][n - 1];
    } else {
      assert Group(s)[k] == Group(rest)[k - 1];
      GroupMaximal(rest, k - 1);
    }
  }
}
