/** Short sessions on the board, each following the handlers through one
    situation: the first post joins a room, a reply from another room is
    refused, the reply length limit, three tokens for one reply, the top three
    of a board, and a join or a selection that nothing checks. */
module Scenarios {
  import opened Text
  import opened Records
  import Views
  import Board

  /** Sorting the sample [5, 1, 9, 3] by tokens gives [9, 5, 3, 1], built up
      one insertion at a time from the back. */
  lemma SortExample(a: Dilemma, b: Dilemma, c: Dilemma, d: Dilemma)
    requires a.totalTokens == 5 && b.totalTokens == 1 && c.totalTokens == 9 && d.totalTokens == 3
    ensures Views.SortByTokens([a, b, c, d]) == [c, a, d, b]
  {
    SortStep(a, [b, c, d]);
    SortStep(b, [c, d]);
    SortStep(c, [d]);
    SortStep(d, []);
    InsertExample(a, b, c, d);
  }

  /** The insertions that sorting the sample performs. */
  lemma InsertExample(a: Dilemma, b: Dilemma, c: Dilemma, d: Dilemma)
    requires a.totalTokens == 5 && b.totalTokens == 1 && c.totalTokens == 9 && d.totalTokens == 3
    ensures Views.Insert(d, []) == [d]
    ensures Views.Insert(c, [d]) == [c, d]
    ensures Views.Insert(b, [c, d]) == [c, d, b]
    ensures Views.Insert(a, [c, d, b]) == [c, a, d, b]
  {
    assert [c, d][1..] == [d];
    assert Views.Insert(b, [d]) == [d, b];
    assert [c, d, b][1..] == [d, b];
    assert Views.Insert(a, [d, b]) == [a, d, b];
  }

  /** One step of sorting: the head is inserted into the sorted tail. */
  lemma SortStep(x: Dilemma, rest: seq<Dilemma>)
    ensures Views.SortByTokens([x] + rest) == Views.Insert(x, Views.SortByTokens(rest))
  {
    assert ([x] + rest)[1..] == rest;
  }

  /** Of four dilemmas with totals 5, 1, 9 and 3, the trending view outside
      any room holds those with 9, 5 and 3, in that order. */
  lemma TrendingExample(a: Dilemma, b: Dilemma, c: Dilemma, d: Dilemma)
    requires a.totalTokens == 5 && b.totalTokens == 1 && c.totalTokens == 9 && d.totalTokens == 3
    ensures Views.Trending([a, b, c, d], None) == [c, a, d]
  {
    TrendingOutsideRooms([a, b, c, d]);
    SortExample(a, b, c, d);
    FirstThree(c, a, d, b);
  }

  lemma FirstThree(w: Dilemma, x: Dilemma, y: Dilemma, z: Dilemma)
    ensures [w, x, y, z][..3] == [w, x, y]
  {
  }

  /** Outside any room, trending is the sorted board cut to three. */
  lemma TrendingOutsideRooms(ds: seq<Dilemma>)
    requires |ds| >= Views.TrendingCount
    ensures Views.Trending(ds, None) == Views.SortByTokens(ds)[..Views.TrendingCount]
  {
  }

  /** The first post outside any room joins its emotion's room; a second post
      with another emotion leaves the room as it is. */
  method FirstPostJoinsRoom(first: string, second: string) returns (room: Option<EmotionId>, count: nat)
    requires Trim(first) != [] && Trim(second) != []
    ensures room == Some("angry") && count == 2
  {
    var b := new Board.Board("shadow-ab", None);
    var o := b.PostDilemma(first, Some("angry"), "1", "t0");
    o := b.PostDilemma(second, Some("lonely"), "2", "t1");
    room, count := b.room, |b.dilemmas|;
  }

  /** A reply to a "lonely" dilemma from the "angry" room is refused and adds
      no reply. */
  method ReplyOutsideRoom(post: string, reply: string) returns (outcome: Board.Outcome, replies: nat)
    requires Trim(post) != []
    ensures outcome == Board.Rejected(Board.RoomMismatch) && replies == 0
  {
    var b := new Board.Board("shadow-ab", None);
    var o := b.PostDilemma(post, Some("lonely"), "1", "t0");
    b.JoinRoom("angry");
    b.SelectDilemma("1");
    outcome := b.AddReply(reply, "2");
    replies := |b.dilemmas[0].replies|;
  }

  /** A reply of at most 200 UTF-16 code units once trimmed is accepted, and
      one longer than that is refused, leaving the dilemma without replies. */
  method ReplyLengthLimit(post: string, reply: string) returns (outcome: Board.Outcome, replies: nat)
    requires Trim(post) != [] && Trim(reply) != []
    ensures outcome == if Utf16Length(Trim(reply)) <= 200 then Board.Accepted else Board.Rejected(Board.TooLong)
    ensures replies == if outcome == Board.Accepted then 1 else 0
  {
    var b := new Board.Board("shadow-ab", None);
    var o := b.PostDilemma(post, Some("angry"), "1", "t0");
    outcome := b.AddReply(reply, "2");
    replies := |b.dilemmas[0].replies|;
  }

  /** Selecting an id no dilemma carries still changes the selection, and a
      reply then finds nothing selected. */
  method SelectUnknown(post: string, reply: string) returns (selected: Option<Id>, outcome: Board.Outcome)
    requires Trim(post) != []
    ensures selected == Some("missing") && outcome == Board.Rejected(Board.NothingSelected)
  {
    var b := new Board.Board("shadow-ab", None);
    var o := b.PostDilemma(post, Some("angry"), "1", "t0");
    b.SelectDilemma("missing");
    selected := b.selected;
    outcome := b.AddReply(reply, "2");
  }

  /** After joining a room, the visible dilemmas are exactly those of that
      room, in board order, and after leaving it they are all the dilemmas. */
  method JoinThenLeave(b: Board.Board, e: EmotionId) returns (inRoom: seq<Dilemma>, all: seq<Dilemma>)
    requires b.Valid() && e != ""
    modifies b
    ensures var idx := Views.RoomPositions(b.dilemmas, e, 0);
      && |inRoom| == |idx|
      && forall k :: 0 <= k < |inRoom| ==> inRoom[k] == b.dilemmas[idx[k]]
    ensures forall d :: d in inRoom <==> d in b.dilemmas && d.emotion == e
    ensures all == b.dilemmas
  {
    b.JoinRoom(e);
    inRoom := b.Visible();
    Views.InRoomIsStableSelection(b.dilemmas, e, 0);
    assert b.dilemmas[0..] == b.dilemmas;
    b.LeaveRoom();
    all := b.Visible();
  }

  /** Joining takes any emotion id, including one the interface never offers. */
  method JoinUnlistedRoom(b: Board.Board) returns (room: Option<EmotionId>)
    requires b.Valid()
    modifies b
    ensures room == Some("bored") && "bored" !in Emotions
  {
    b.JoinRoom("bored");
    room := b.room;
  }

  /** A post in the "angry" room with one reply to it, as the board stands
      before any token is given. */
  method PostWithReply(post: string, reply: string) returns (b: Board.Board)
    requires Trim(post) != [] && Trim(reply) != [] && Utf16Length(Trim(reply)) <= MaxReplyLength
    ensures fresh(b) && b.Valid()
    ensures |b.dilemmas| == 1 && b.dilemmas[0].id == "1" && Consistent(b.dilemmas[0])
    ensures b.dilemmas[0].replies == [Reply("2", Trim(reply), "shadow-ab", 0)]
  {
    b := new Board.Board("shadow-ab", None);
    var o := b.PostDilemma(post, Some("angry"), "1", "t0");
    o := b.AddReply(reply, "2");
  }

  /** Three tokens for one reply give it three tokens, and its dilemma a total of three. */
  method ThreeTokens(post: string, reply: string) returns (tokens: nat, total: nat)
    requires Trim(post) != [] && Trim(reply) != [] && Utf16Length(Trim(reply)) <= MaxReplyLength
    ensures tokens == 3 && total == 3
  {
    var b := PostWithReply(post, reply);
    var d := b.dilemmas[0];
    b.GiveToken("1", "2");
    var d1 := b.dilemmas[0];
    assert d1 == GiveTokenIn(d, "2") && d1.id == "1";
    b.GiveToken("1", "2");
    var d2 := b.dilemmas[0];
    assert d2 == GiveTokenIn(d1, "2") && d2.id == "1";
    b.GiveToken("1", "2");
    assert b.dilemmas[0] == GiveTokenIn(d2, "2");
    TokensOnSingleReply(d, "2");
    tokens, total := b.dilemmas[0].replies[0].tokens, b.dilemmas[0].totalTokens;
  }

  /** Three tokens for the only reply of a dilemma with no tokens. */
  lemma TokensOnSingleReply(d: Dilemma, replyId: Id)
    requires |d.replies| == 1 && d.replies[0].id == replyId && d.replies[0].tokens == 0 && Consistent(d)
    ensures var r := GiveTokenIn(GiveTokenIn(GiveTokenIn(d, replyId), replyId), replyId);
      r.replies[0].tokens == 3 && r.totalTokens == 3
  {
    var d1 := GiveTokenIn(d, replyId);
    assert d1.replies[0].tokens == 1 && d1.replies[0].id == replyId;
    var d2 := GiveTokenIn(d1, replyId);
    assert d2.replies[0].tokens == 2 && d2.replies[0].id == replyId;
    var d3 := GiveTokenIn(d2, replyId);
    assert d3.replies[0].tokens == 3;
    assert |d3.replies| == 1 && d3.replies[1..] == [];
    assert SumTokens(d3.replies) == d3.replies[0].tokens + SumTokens([]);
  }
}
