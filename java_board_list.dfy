/** The Java generation's BoardList: the games in play, in the order they were added. */
module JavaBoardLists {
  import opened JavaMoves
  import opened JavaRules
  import opened JavaBoards

  /** The index of the first entry equal to name, or -1 when there is none. */
  function FirstIndex(names: seq<string>, name: string): (k: int)
    ensures -1 <= k < |names|
    ensures k == -1 <==> name !in names
    ensures k >= 0 ==> names[k] == name && name !in names[..k]
  {
    if |names| == 0 then -1
    else if names[0] == name then 0
    else
      var k := FirstIndex(names[1..], name);
      assert names[1..][..if k < 0 then 0 else k] == names[1..if k < 0 then 1 else k + 1];
      if k == -1 then -1 else k + 1
  }

  /** Adding a board leaves every earlier lookup as it was, and finds the new board only for a
      name no earlier board has. */
  lemma {:induction false} FirstIndexAppend(names: seq<string>, n: string, name: string)
    ensures FirstIndex(names + [n], name) ==
      if name in names then FirstIndex(names, name) else if n == name then |names| else -1
  {
    var k := FirstIndex(names + [n], name);
    if name in names {
      var j := FirstIndex(names, name);
      assert (names + [n])[j] == name;
      assert (names + [n])[..j] == names[..j];
    } else if n == name {
      assert (names + [n])[|names|] == name;
      assert (names + [n])[..|names|] == names;
    }
  }

  /** Removing a board behind the first one with a name does not change that name's lookup. */
  lemma FirstIndexRemoveLater(names: seq<string>, i: int, name: string)
    requires 0 <= i < |names| && 0 <= FirstIndex(names, name) < i
    ensures FirstIndex(names[..i] + names[i + 1..], name) == FirstIndex(names, name)
  {
    var j := FirstIndex(names, name);
    var rest := names[..i] + names[i + 1..];
    assert rest[j] == name;
    assert rest[..j] == names[..j];
  }

  class BoardList {
    var boards: seq<Board>

    /** The names of the boards, in list order. */
    function Names(): (names: seq<string>)
      reads this, boards
      ensures |names| == |boards|
      ensures forall i :: 0 <= i < |boards| ==> names[i] == boards[i].name
    {
      seq(|boards|, i requires 0 <= i < |boards| reads this, boards => boards[i].name)
    }

    /** BoardList(): no boards. */
    constructor ()
      ensures boards == []
    {
      boards := [];
    }

    /** addBoard: appends b. */
    method AddBoard(b: Board)
      modifies this
      ensures boards == old(boards) + [b]
    {
      boards := boards + [b];
    }

    /** getBoard(name): the first board with that name, or a new board when none has it. */
    method GetBoardNamed(name: string) returns (b: Board)
      ensures var k := FirstIndex(Names(), name);
        && (k >= 0 ==> b == boards[k])
        && (k < 0 ==> fresh(b) && b.Valid() && b.State() == NewBoardState() && b.name == "New Board")
    {
      ghost var names := Names();
      var i := 0;
      while i < |boards|
        invariant 0 <= i <= |boards|
        invariant name !in names[..i]
      {
        if name == boards[i].name {
          assert names[..i + 1] == names[..i] + [name];
          FirstIndexPrefix(names, i, name);
          return boards[i];
        }
        assert names[..i + 1] == names[..i] + [names[i]];
        i := i + 1;
      }
      assert names[..i] == names;
      b := new Board();
    }

    /** getBoard(i): entry i; None stands for the IndexOutOfBoundsException. */
    method GetBoardAt(i: int) returns (b: Option<Board>)
      ensures b.Some? <==> 0 <= i < |boards|
      ensures b.Some? ==> b.value == boards[i]
    {
      if 0 <= i < |boards| {
        b := Some(boards[i]);
      } else {
        b := None;
      }
    }

    /** removeBoard(i): deletes entry i and keeps the order of the rest; out of range it throws
        (thrown) and leaves the list alone. */
    method RemoveBoard(i: int) returns (thrown: bool)
      modifies this
      ensures thrown <==> !(0 <= i < |old(boards)|)
      ensures boards == if thrown then old(boards) else old(boards)[..i] + old(boards)[i + 1..]
    {
      if 0 <= i < |boards| {
        boards := boards[..i] + boards[i + 1..];
        thrown := false;
      } else {
        thrown := true;
      }
    }

    /** getBoards. */
    method GetBoards() returns (all: seq<Board>)
      ensures all == boards
    {
      all := boards;
    }
  }

  /** The first entry is at i when it holds the name and the entries before it do not. */
  lemma FirstIndexPrefix(names: seq<string>, i: int, name: string)
    requires 0 <= i < |names| && names[i] == name && name !in names[..i]
    ensures FirstIndex(names, name) == i
  {
  }
}
