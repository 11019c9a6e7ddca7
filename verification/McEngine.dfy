/** The engine facade: one order book per symbol. */
module McEngine {
  import opened Common
  import opened McTypes
  import opened McBook
  import opened McSpec
  import opened McRuns
  import opened McHandlers

  /** Dispatch one order to the handler of its form. */
  method Dispatch(book: OrderBook, o: BbOrder) returns (es: seq<MatchEvent>)
    requires Good(book.Book())
    modifies book
    ensures (book.Book(), es) == McStep(old(book.Book()), o)
  {
    hide Good, LimitStep, MarketStep, PostOnlyStep, IocStep, FokStep, HasNo, WithoutNo;
    if o.status == STATUS_REVOKE {
      if SideOf(o) == None {
        return [];
      }
      var side := SideOf(o).value;
      if !HasNo(book.Book().Of(side), o.no) {
        WithoutAbsentNo(book.Book().Of(side), o.no);
        WithSelf(book.Book(), side);
      }
      es := RevokeByNo(book, side, o.no, "user");
      return;
    }
    if book.Book().Has(o.no) {
      return [];
    }
    if SideOf(o) == None {
      var _ := book.Insert(o);
      return [];
    }
    var side := SideOf(o).value;
    if o.form == FORM_POST_ONLY || o.form == FORM_IOC || o.form == FORM_FOK {
      es := HandleHeight(book, side, o);
    } else if o.form == FORM_MARKET {
      es := HandleMarket(book, side, o);
    } else {
      es := HandleLimit(book, side, o);
    }
  }

  lemma EmptyIsGood()
    ensures Good(Sides([], []))
  {
  }

  class Engine {
    var books: map<string, OrderBook>

    ghost predicate Valid()
      reads this, books.Values
    {
      && (forall s, t :: s in books && t in books && s != t ==> books[s] != books[t])
      && (forall s :: s in books ==> Good(books[s].Book()))
    }

    /** The book of a symbol; a symbol not seen yet has an empty one. */
    ghost function View(symbol: string): Sides
      reads this, books.Values
    {
      if symbol in books then books[symbol].Book() else Sides([], [])
    }

    constructor ()
      ensures Valid() && books == map[]
    {
      books := map[];
    }

    /** One order changes the book of its own symbol by one step and no other book. */
    method OnOrder(o: BbOrder) returns (es: seq<MatchEvent>)
      requires Valid()
      modifies this, books.Values
      ensures Valid()
      ensures (View(o.symbol), es) == McStep(old(View(o.symbol)), o)
      ensures forall s :: s != o.symbol ==> View(s) == old(View(s))
    {
      hide McStep, Good;
      if o.symbol !in books {
        EmptyIsGood();
        var created := new OrderBook();
        books := books[o.symbol := created];
      }
      var book := books[o.symbol];
      ghost var before := book.Book();
      StepKeepsGood(before, o);
      es := Dispatch(book, o);
    }
  }
}
