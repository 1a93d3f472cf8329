/** The board's records (a dilemma with its replies) and the pure updates the
    handlers apply to a single dilemma: appending a reply, giving a token and
    recomputing the dilemma's token total, and finding the selected dilemma. */
module Records {

  datatype Option<+T> = None | Some(value: T)

  /** Ids are the decimal strings of `Date.now()`; they are supplied by the caller. */
  type Id = string
  /** Emotion ids such as "angry"; any string can reach the board through a join. */
  type EmotionId = string

  /** Longest accepted reply, in UTF-16 code units of the trimmed text. */
  const MaxReplyLength: nat := 200

  /** The emotion ids the interface offers, in display order. */
  const Emotions: seq<EmotionId> := ["confused", "lonely", "angry", "embarrassed", "stressed"]

  /** JavaScript truthiness of an optional string: `null` and `""` are both falsy. */
  predicate Present(o: Option<string>) {
    o.Some? && o.value != ""
  }

  datatype Reply = Reply(id: Id, text: string, authorId: string, tokens: nat)

  datatype Dilemma = Dilemma(
    id: Id,
    text: string,
    emotion: EmotionId,
    createdAt: string,
    authorId: string,
    replies: seq<Reply>,
    totalTokens: nat)

  /** Sum of the tokens of `rs` (the `reduce` over the replies): no reply has
      more tokens than the sum, and the sum is zero exactly when no reply has
      a token. */
  function SumTokens(rs: seq<Reply>): (s: nat)
    ensures forall k :: 0 <= k < |rs| ==> rs[k].tokens <= s
    ensures s == 0 <==> forall k :: 0 <= k < |rs| ==> rs[k].tokens == 0
  {
    if rs == [] then 0 else rs[0].tokens + SumTokens(rs[1..])
  }

  /** The stored total of `d` agrees with its replies. */
  predicate Consistent(d: Dilemma) {
    d.totalTokens == SumTokens(d.replies)
  }

  /** Number of replies in `rs` whose id is `id`. */
  function Occurrences(rs: seq<Reply>, id: Id): nat {
    if rs == [] then 0 else (if rs[0].id == id then 1 else 0) + Occurrences(rs[1..], id)
  }

  /** Appending a reply adds its tokens to the sum. */
  lemma {:induction false} SumTokensAppend(rs: seq<Reply>, r: Reply)
    ensures SumTokens(rs + [r]) == SumTokens(rs) + r.tokens
  {
    if rs != [] {
      assert (rs + [r])[1..] == rs[1..] + [r];
      SumTokensAppend(rs[1..], r);
    }
  }

  /** The replies after a token for `replyId` (the inner `map` of
      `handleGiveToken`): the same replies in the same order, differing only
      in tokens, with one more token exactly for those carrying `replyId`. */
  function BumpReplies(rs: seq<Reply>, replyId: Id): (r: seq<Reply>)
    ensures |r| == |rs|
    ensures forall k :: 0 <= k < |rs| ==> r[k] == rs[k].(tokens := r[k].tokens)
    ensures forall k :: 0 <= k < |rs| ==>
      r[k].tokens == rs[k].tokens || r[k].tokens == rs[k].tokens + 1
    ensures forall k :: 0 <= k < |rs| ==> (r[k].tokens != rs[k].tokens <==> rs[k].id == replyId)
  {
    seq(|rs|, k requires 0 <= k < |rs| =>
      if rs[k].id == replyId then rs[k].(tokens := rs[k].tokens + 1) else rs[k])
  }

  /** A token for `replyId` raises the sum by the number of replies carrying that id. */
  lemma {:induction false} SumTokensAfterBump(rs: seq<Reply>, replyId: Id)
    ensures SumTokens(BumpReplies(rs, replyId)) == SumTokens(rs) + Occurrences(rs, replyId)
  {
    if rs != [] {
      assert BumpReplies(rs, replyId)[1..] == BumpReplies(rs[1..], replyId);
      SumTokensAfterBump(rs[1..], replyId);
    }
  }

  /** A reply id that no reply carries leaves the replies as they are. */
  lemma {:induction false} BumpAbsentReply(rs: seq<Reply>, replyId: Id)
    requires Occurrences(rs, replyId) == 0
    ensures BumpReplies(rs, replyId) == rs
  {
    if rs != [] {
      BumpAbsentReply(rs[1..], replyId);
      assert BumpReplies(rs, replyId)[1..] == BumpReplies(rs[1..], replyId);
    }
  }

  /** One dilemma after a token for `replyId` (the callback of `handleGiveToken`):
      only the replies and the total change, the total is recomputed from the
      replies whatever it was before, each reply with that id gains one token
      and no other reply changes, and a consistent
      dilemma's total grows by the number of replies with that id. */
  function GiveTokenIn(d: Dilemma, replyId: Id): (r: Dilemma)
    ensures r == d.(replies := r.replies, totalTokens := r.totalTokens)
    ensures Consistent(r)
    ensures |r.replies| == |d.replies|
    ensures forall k :: 0 <= k < |d.replies| ==>
      r.replies[k] == d.replies[k].(tokens := d.replies[k].tokens + if d.replies[k].id == replyId then 1 else 0)
    ensures Consistent(d) ==> r.totalTokens == d.totalTokens + Occurrences(d.replies, replyId)
  {
    var bumped := BumpReplies(d.replies, replyId);
    SumTokensAfterBump(d.replies, replyId);
    d.(replies := bumped, totalTokens := SumTokens(bumped))
  }

  /** With exactly one reply carrying `replyId`, that reply gains exactly one
      token and so does the total. */
  lemma GiveTokenToUniqueReply(d: Dilemma, replyId: Id, k: nat)
    requires Consistent(d)
    requires k < |d.replies| && d.replies[k].id == replyId
    requires Occurrences(d.replies, replyId) == 1
    ensures GiveTokenIn(d, replyId).replies[k].tokens == d.replies[k].tokens + 1
    ensures GiveTokenIn(d, replyId).totalTokens == d.totalTokens + 1
  {
  }

  /** A token for a reply id the dilemma does not have changes nothing in a
      consistent dilemma. */
  lemma GiveTokenAbsentReply(d: Dilemma, replyId: Id)
    requires Consistent(d) && Occurrences(d.replies, replyId) == 0
    ensures GiveTokenIn(d, replyId) == d
  {
    BumpAbsentReply(d.replies, replyId);
  }

  /** One dilemma after a reply is added (the callback of `handleAddReply`):
      the reply goes at the end; the total is not recomputed, yet a consistent
      dilemma stays consistent because a new reply carries no tokens. */
  function AppendReply(d: Dilemma, reply: Reply): (r: Dilemma)
    requires reply.tokens == 0
    ensures r == d.(replies := r.replies)
    ensures |r.replies| == |d.replies| + 1
    ensures r.replies[..|d.replies|] == d.replies && r.replies[|d.replies|] == reply
    ensures Consistent(d) ==> Consistent(r)
  {
    SumTokensAppend(d.replies, reply);
    d.(replies := d.replies + [reply])
  }

  /** The selected dilemma is the FIRST one carrying the selected id: whatever
      position holds the first match, that dilemma is the selection. */
  lemma SelectedIsFirstMatch(ds: seq<Dilemma>, selected: Option<Id>, k: nat)
    requires selected.Some? && k < |ds| && ds[k].id == selected.value
    requires forall j :: 0 <= j < k ==> ds[j].id != selected.value
    ensures SelectedDilemma(ds, selected) == Some(ds[k])
  {
  }

  /** Position of the first dilemma whose id is `id` (`Array.prototype.find`). */
  function FindIndex(ds: seq<Dilemma>, id: Id): (r: Option<nat>)
    ensures r.Some? ==> r.value < |ds| && ds[r.value].id == id
    ensures r.Some? ==> forall j :: 0 <= j < r.value ==> ds[j].id != id
    ensures r.None? ==> forall j :: 0 <= j < |ds| ==> ds[j].id != id
  {
    if ds == [] then None
    else if ds[0].id == id then Some(0)
    else match FindIndex(ds[1..], id)
      case None => None
      case Some(k) => Some(k + 1)
  }

  /** The selected dilemma: the first whose id equals the selection, or none
      when nothing is selected or no dilemma carries that id. */
  function SelectedDilemma(ds: seq<Dilemma>, selected: Option<Id>): (r: Option<Dilemma>)
    ensures r.Some? ==> selected.Some? && r.value in ds && r.value.id == selected.value
    ensures r.None? ==> selected.None? || forall j :: 0 <= j < |ds| ==> ds[j].id != selected.value
  {
    if selected.None? then None
    else match FindIndex(ds, selected.value)
      case None => None
      case Some(k) => Some(ds[k])
  }
}
