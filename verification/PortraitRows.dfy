/**
 The rows a portrait is built from. Order-book rows are read in query order and repeated ones dropped;
 each trade gets the side of the book that was in force when it happened, found by bisection among the
 books of its role.
 */
module PortraitRows {
  import opened Wrappers
  import opened Reactions

  datatype Row = Row(
    marketId: string, tokenId: string, role: string, timestamp: int, providerSequence: int, hash: string,
    bestBid: Option<real>, bestAsk: Option<real>)

  datatype Book = Book(eventSequence: nat, row: Row)

  datatype Trade = Trade(role: string, timestamp: int, price: real)

  datatype Side = Unknown | Buy | Sell

  function Key(row: Row): (string, int, string) {
    (row.tokenId, row.timestamp, row.hash)
  }

  // ---- order-book states ----

  /** Two rows show one state of one book exactly if token, time and content hash are the same. */
  lemma {:induction false} KeysAreStates(a: Row, b: Row)
    ensures Key(a) == Key(b) <==> a.tokenId == b.tokenId && a.timestamp == b.timestamp && a.hash == b.hash
  {
  }

  ghost predicate IsRepeat(rows: seq<Row>, i: nat)
    requires i < |rows|
  {
    exists j :: 0 <= j < i && Key(rows[j]) == Key(rows[i])
  }

  /** The first row of each key among the first n rows, numbered in order. */
  ghost function Books(rows: seq<Row>, n: nat): seq<Book>
    requires n <= |rows|
  {
    if n == 0 then []
    else if IsRepeat(rows, n - 1) then Books(rows, n - 1)
    else Books(rows, n - 1) + [Book(|Books(rows, n - 1)|, rows[n - 1])]
  }

  method FetchBooks(rows: seq<Row>) returns (books: seq<Book>)
    ensures books == Books(rows, |rows|)
  {
    books := [];
    var seen: set<(string, int, string)> := {};
    var i := 0;
    while i < |rows|
      invariant 0 <= i <= |rows| && books == Books(rows, i)
      invariant forall key :: key in seen <==> exists j :: 0 <= j < i && Key(rows[j]) == key
    {
      if Key(rows[i]) !in seen {
        seen := seen + {Key(rows[i])};
        books := books + [Book(|books|, rows[i])];
      }
      i := i + 1;
    }
  }

  ghost predicate ComesFirst(rows: seq<Row>, n: nat, row: Row)
    requires n <= |rows|
  {
    exists i :: 0 <= i < n && rows[i] == row && !IsRepeat(rows, i)
  }

  /** The states are numbered from 0, are first rows of their keys, and no key is lost. */
  lemma {:induction false} BooksAreFirstRows(rows: seq<Row>, n: nat)
    requires n <= |rows|
    ensures forall k :: 0 <= k < |Books(rows, n)| ==>
      Books(rows, n)[k].eventSequence == k && ComesFirst(rows, n, Books(rows, n)[k].row)
    ensures forall i :: 0 <= i < n ==>
        exists k :: 0 <= k < |Books(rows, n)| && Key(Books(rows, n)[k].row) == Key(rows[i])
  {
    if n > 0 {
      BooksAreFirstRows(rows, n - 1);
      var before, books := Books(rows, n - 1), Books(rows, n);
      forall k | 0 <= k < |books| ensures books[k].eventSequence == k && ComesFirst(rows, n, books[k].row) {
        if k < |before| {
          assert books[k] == before[k] && ComesFirst(rows, n - 1, before[k].row);
          var i :| 0 <= i < n - 1 && rows[i] == before[k].row && !IsRepeat(rows, i);
        } else {
          assert rows[n - 1] == books[k].row && !IsRepeat(rows, n - 1);
        }
      }
      forall i | 0 <= i < n ensures exists k :: 0 <= k < |books| && Key(books[k].row) == Key(rows[i]) {
        KeyIsKept(rows, n, i);
      }
    }
  }

  lemma {:induction false} KeyIsKept(rows: seq<Row>, n: nat, i: nat)
    requires i < n <= |rows|
    ensures exists k :: 0 <= k < |Books(rows, n)| && Key(Books(rows, n)[k].row) == Key(rows[i])
    decreases n
  {
    var before, books := Books(rows, n - 1), Books(rows, n);
    if i < n - 1 {
      KeyIsKept(rows, n - 1, i);
      var k :| 0 <= k < |before| && Key(before[k].row) == Key(rows[i]);
      assert books[k] == before[k];
    } else if IsRepeat(rows, i) {
      var j :| 0 <= j < i && Key(rows[j]) == Key(rows[i]);
      KeyIsKept(rows, n - 1, j);
    } else {
      assert books[|before|].row == rows[i];
    }
  }

  /** Each key occurs once. */
  ghost predicate KeysDiffer(books: seq<Book>) {
    forall a, b :: 0 <= a < b < |books| ==> Key(books[a].row) != Key(books[b].row)
  }

  lemma {:induction false} NewKeyKeepsDistinct(books: seq<Book>, book: Book)
    requires KeysDiffer(books) && forall a :: 0 <= a < |books| ==> Key(books[a].row) != Key(book.row)
    ensures KeysDiffer(books + [book])
  {
  }

  lemma {:induction false} NewKeyIsNew(rows: seq<Row>, n: nat, a: nat)
    requires n < |rows| && !IsRepeat(rows, n) && a < |Books(rows, n)|
    ensures Key(Books(rows, n)[a].row) != Key(rows[n])
  {
    BooksAreFirstRows(rows, n);
    assert ComesFirst(rows, n, Books(rows, n)[a].row);
    var i :| 0 <= i < n && rows[i] == Books(rows, n)[a].row;
    assert Key(rows[i]) == Key(Books(rows, n)[a].row);
  }

  lemma {:induction false} OneMoreBook(rows: seq<Row>, n: nat, before: seq<Book>)
    requires n < |rows| && before == Books(rows, n) && KeysDiffer(before)
    ensures KeysDiffer(Books(rows, n + 1))
  {
    if !IsRepeat(rows, n) {
      forall a | 0 <= a < |before| ensures Key(before[a].row) != Key(rows[n]) {
        NewKeyIsNew(rows, n, a);
      }
      NewKeyKeepsDistinct(before, Book(|before|, rows[n]));
    }
  }

  lemma {:induction false} BooksAreDistinct(rows: seq<Row>, n: nat)
    requires n <= |rows|
    ensures KeysDiffer(Books(rows, n))
  {
    if n > 0 {
      BooksAreDistinct(rows, n - 1);
      OneMoreBook(rows, n - 1, Books(rows, n - 1));
    }
  }

  /** Rows in time order give books in time order. */
  lemma {:induction false} BooksStayAscending(rows: seq<Row>, n: nat)
    requires n <= |rows| && RowsAscend(rows)
    ensures BooksAscend(Books(rows, n))
    ensures forall k :: 0 <= k < |Books(rows, n)| && n > 0 ==> Books(rows, n)[k].row.timestamp <= rows[n - 1].timestamp
  {
    if n > 0 {
      BooksStayAscending(rows, n - 1);
      if n > 1 { assert rows[n - 2].timestamp <= rows[n - 1].timestamp; }
    }
  }

  ghost predicate RowsAscend(rows: seq<Row>) {
    forall i, j :: 0 <= i < j < |rows| ==> rows[i].timestamp <= rows[j].timestamp
  }

  ghost predicate BooksAscend(books: seq<Book>) {
    forall i, j :: 0 <= i < j < |books| ==> books[i].row.timestamp <= books[j].row.timestamp
  }

  // ---- trades ----

  function RoleBooks(books: seq<Book>, n: nat, role: string): seq<Book>
    requires n <= |books|
  {
    if n == 0 then []
    else if books[n - 1].row.role == role then RoleBooks(books, n - 1, role) + [books[n - 1]]
    else RoleBooks(books, n - 1, role)
  }

  function Times(books: seq<Book>): seq<int> {
    seq(|books|, i requires 0 <= i < |books| => books[i].row.timestamp)
  }

  /** The linear specification: the last book of the role that is not later than the trade. */
  function LatestBook(books: seq<Book>, n: nat, role: string, time: int): Option<Book>
    requires n <= |books|
  {
    if n == 0 then None
    else if books[n - 1].row.role == role && books[n - 1].row.timestamp <= time then Some(books[n - 1])
    else LatestBook(books, n - 1, role, time)
  }

  function SideAgainst(book: Option<Book>, price: real): Side {
    if book.None? then Unknown
    else if book.value.row.bestAsk.Some? && price >= book.value.row.bestAsk.value then Buy
    else if book.value.row.bestBid.Some? && price <= book.value.row.bestBid.value then Sell
    else Unknown
  }

  function Roles(books: seq<Book>): set<string> {
    set book | book in books :: book.row.role
  }

  /** `bisect.bisect_right`: past every timestamp that is not later than the given one. */
  method BisectRight(timestamps: seq<int>, time: int) returns (lo: nat)
    requires Ascending(timestamps)
    ensures lo == LowerBound(timestamps, time + 1)
  {
    lo := 0;
    var hi := |timestamps|;
    while lo < hi
      invariant 0 <= lo <= hi <= |timestamps|
      invariant forall k :: 0 <= k < lo ==> timestamps[k] <= time
      invariant forall k :: hi <= k < |timestamps| ==> timestamps[k] > time
    {
      var mid := (lo + hi) / 2;
      if time < timestamps[mid] {
        hi := mid;
      } else {
        lo := mid + 1;
      }
    }
    LowerBoundIsUnique(timestamps, time + 1, lo);
  }

  lemma {:induction false} RoleBooksAscend(books: seq<Book>, n: nat, role: string)
    requires n <= |books| && BooksAscend(books)
    ensures BooksAscend(RoleBooks(books, n, role))
    ensures forall k, i :: 0 <= k < |RoleBooks(books, n, role)| && n <= i < |books| ==>
      RoleBooks(books, n, role)[k].row.timestamp <= books[i].row.timestamp
  {
    if n > 0 {
      RoleBooksAscend(books, n - 1, role);
      assert forall i :: n <= i < |books| ==> books[n - 1].row.timestamp <= books[i].row.timestamp;
    }
  }

  lemma {:induction false} BoundOfLonger(timestamps: seq<int>, last: int, time: int)
    requires forall i :: 0 <= i < |timestamps| ==> timestamps[i] <= last
    ensures LowerBound(timestamps + [last], time + 1)
        == if last <= time then |timestamps| + 1 else LowerBound(timestamps, time + 1)
  {
    LowerBoundSplits(timestamps, time + 1);
    var more := timestamps + [last];
    LowerBoundIsUnique(more, time + 1, if last <= time then |more| else LowerBound(timestamps, time + 1));
  }

  /** On books in time order, the book before the bisection point is the latest one of the linear scan. */
  lemma {:induction false} BisectionFindsLatest(books: seq<Book>, n: nat, role: string, time: int)
    requires n <= |books| && BooksAscend(books)
    ensures var mine := RoleBooks(books, n, role);
      var k := LowerBound(Times(mine), time + 1);
      k <= |mine| && LatestBook(books, n, role, time) == if k == 0 then None else Some(mine[k - 1])
  {
    if n > 0 {
      BisectionFindsLatest(books, n - 1, role, time);
      if books[n - 1].row.role == role {
        var before := RoleBooks(books, n - 1, role);
        RoleBooksAscend(books, n - 1, role);
        BoundOfLonger(Times(before), books[n - 1].row.timestamp, time);
        assert Times(before + [books[n - 1]]) == Times(before) + [books[n - 1].row.timestamp];
      }
    }
  }

  /** The trade loop; it raises at the first trade whose role has no book. */
  method FetchTrades(books: seq<Book>, trades: seq<Trade>) returns (sides: Result<seq<Side>, string>)
    requires BooksAscend(books)
    ensures sides.Success? <==> forall i :: 0 <= i < |trades| ==> trades[i].role in Roles(books)
    ensures sides.Success? ==> |sides.value| == |trades| && forall i :: 0 <= i < |trades| ==>
      sides.value[i] == SideAgainst(LatestBook(books, |books|, trades[i].role, trades[i].timestamp), trades[i].price)
  {
    var out: seq<Side> := [];
    var i := 0;
    while i < |trades|
      invariant 0 <= i == |out| <= |trades|
      invariant forall j :: 0 <= j < i ==> trades[j].role in Roles(books)
      invariant forall j :: 0 <= j < i ==>
        out[j] == SideAgainst(LatestBook(books, |books|, trades[j].role, trades[j].timestamp), trades[j].price)
    {
      var trade := trades[i];
      if trade.role !in Roles(books) {
        return Failure(trade.role);
      }
      var mine := RoleBooks(books, |books|, trade.role);
      RoleBooksAscend(books, |books|, trade.role);
      var past := BisectRight(Times(mine), trade.timestamp);
      BisectionFindsLatest(books, |books|, trade.role, trade.timestamp);
      out := out + [SideAgainst(if past > 0 then Some(mine[past - 1]) else None, trade.price)];
      i := i + 1;
    }
    sides := Success(out);
  }

  // ---- sides ----

  /** A trade at or above the ask is a buy, or else one at or below the bid a sell; with no such quote it is neither. */
  lemma {:induction false} SidesExactly(book: Option<Book>, price: real)
    ensures SideAgainst(book, price) == Buy <==>
            exists ask :: book.Some? && book.value.row.bestAsk == Some(ask) && ask <= price
    ensures SideAgainst(book, price) == Sell <==>
            SideAgainst(book, price) != Buy
            && exists bid :: book.Some? && book.value.row.bestBid == Some(bid) && price <= bid
  {
    if book.Some? && book.value.row.bestAsk.Some? {
      assert book.value.row.bestAsk == Some(book.value.row.bestAsk.value);
    }
    if book.Some? && book.value.row.bestBid.Some? {
      assert book.value.row.bestBid == Some(book.value.row.bestBid.value);
    }
  }
}
