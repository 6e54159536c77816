/** The lending library (`LibraryMgmt`, `User`): books as numbered volumes,
    users with a loan limit and a loan duration, and loans of one volume to
    one user with a due date and, once closed, a return date. Dates are day
    numbers. */
module Library {
  import opened Util
  import opened JavaText

  const TITLE_EXISTS := "Book with the same title already present!"
  const USER_EXISTS := "User already defined!"
  const NO_BOOK := "Book not present!"
  const AT_LIMIT := "User has reached the maximum number of loans available!"
  const NOT_RETURNED := "User has not yet returned a book!"

  /** How an operation ends when it does not return: with the checked
      `LMException`, or with the runtime exception of `Optional.get` on no
      element or of a list index out of range. */
  datatype Failure =
    | LMException(message: string)
    | NoSuchElement
    | IndexOutOfBounds

  datatype Outcome<T> = Done(value: T) | Thrown(failure: Failure)

  /** A library user: the counter of books on loan is the only thing that
      changes after construction. */
  class User {
    const name: string
    const maxBooks: int
    const loanDuration: int
    var booksLoaned: int

    constructor (name: string, maxBooks: int, loanDuration: int)
      ensures this.name == name && this.maxBooks == maxBooks && this.loanDuration == loanDuration
      ensures booksLoaned == 0
    {
      this.name, this.maxBooks, this.loanDuration := name, maxBooks, loanDuration;
      booksLoaned := 0;
    }

    /** `canStillLoan`: the books on loan minus the maximum, in `int`
        arithmetic, is negative. */
    predicate CanStillLoan()
      reads this
    {
      Wrap32(booksLoaned - maxBooks) < 0
    }

    /** `loan`: one more book, in `int` arithmetic. */
    method Loan()
      modifies this
      ensures booksLoaned == Wrap32(old(booksLoaned) + 1)
    {
      booksLoaned := Wrap32(booksLoaned + 1);
    }

    /** `removeLoan`: one book fewer, with no check against zero. */
    method RemoveLoan()
      modifies this
      ensures booksLoaned == Wrap32(old(booksLoaned) - 1)
    {
      booksLoaned := Wrap32(booksLoaned - 1);
    }
  }

  /** Where the subtraction does not overflow, a user can still borrow
      exactly while below the maximum. */
  lemma CanStillLoanBelowMax(u: User)
    requires IsInt32(u.booksLoaned - u.maxBooks)
    ensures u.CanStillLoan() <==> u.booksLoaned < u.maxBooks
  {
  }

  function UserNames(us: seq<User>): (r: seq<string>)
    ensures |r| == |us| && forall k :: 0 <= k < |us| ==> r[k] == us[k].name
  {
    seq(|us|, k requires 0 <= k < |us| => us[k].name)
  }

  /** A volume of a book (`Book`). */
  datatype Volume = Volume(title: string, authors: seq<string>, available: bool)

  /** A loan (`Loan`): the user, the 0-based index of the volume, the due
      date and the return date of a closed loan. */
  datatype Loan = Loan(user: User, volume: int, due: int, returned: Option<int>)

  function Titles(vs: seq<Volume>): (r: seq<string>)
    ensures |r| == |vs| && forall k :: 0 <= k < |vs| ==> r[k] == vs[k].title
  {
    seq(|vs|, k requires 0 <= k < |vs| => vs[k].title)
  }

  /** `n` new volumes of a book (none when `n` is not positive). */
  function Copies(v: Volume, n: int): (r: seq<Volume>)
    ensures |r| == if n > 0 then n else 0
    ensures forall k :: 0 <= k < |r| ==> r[k] == v
  {
    seq(if n > 0 then n else 0, _ => v)
  }

  lemma CopiesSnoc(v: Volume, i: nat)
    ensures Copies(v, i + 1) == Copies(v, i) + [v]
  {
  }

  /** The text `addBook` returns: the 1-based numbers of the first and the
      last new volume, `minR + nVolumes - 1` in `int` arithmetic. */
  function RangeText(minR: int, n: int): string {
    IntToString(minR) + ":" + IntToString(Wrap32(minR + n - 1))
  }

  /** The range text splits at its colon into the numbers of the first and
      the last new volume, `n` apart less one. */
  lemma RangeTextReadBack(minR: int, n: int)
    requires 1 <= minR && 1 <= n && minR + n - 1 <= INT_MAX
    ensures var parts := Split(RangeText(minR, n), ':');
      |parts| == 2 && ParseInt(parts[0]) == Some(minR) && ParseInt(parts[1]) == Some(minR + n - 1)
  {
    assert RangeText(minR, n) == IntToString(minR) + ":" + IntToString(minR + n - 1);
    NumberPairReadBack(minR, minR + n - 1);
  }

  lemma NumberPairReadBack(x: int, y: int)
    requires IsInt32(x) && IsInt32(y)
    ensures var parts := Split(IntToString(x) + ":" + IntToString(y), ':');
      |parts| == 2 && ParseInt(parts[0]) == Some(x) && ParseInt(parts[1]) == Some(y)
  {
    var a, b := IntToString(x), IntToString(y);
    NoColon(x);
    NoColon(y);
    assert Join([a, b], ':') == a + ":" + b;
    SplitJoin([a, b], ':');
    ParseIntToString(x);
    ParseIntToString(y);
  }

  lemma JoinFive(r: seq<string>)
    requires |r| == 5
    ensures Join(r, ':') == r[0] + ":" + r[1] + ":" + r[2] + ":" + r[3] + ":" + r[4]
  {
    var t3 := r[3] + ":" + r[4];
    var t2 := r[2] + ":" + t3;
    var t1 := r[1] + ":" + t2;
    assert r[1..][1..][1..][1..] == [r[4]];
    assert Join(r[1..][1..][1..], ':') == t3;
    assert Join(r[1..][1..], ':') == t2;
    assert Join(r[1..], ':') == t1;
    assert r[0] + ":" + t1 == r[0] + ":" + r[1] + ":" + r[2] + ":" + r[3] + ":" + r[4];
  }

  lemma NoColon(n: int)
    ensures ':' !in IntToString(n)
  {
    if ':' in IntToString(n) {
      IntToStringChars(n, ':');
    }
  }

  /** The text `addUser` returns. */
  function UserText(name: string, maxBooks: int, duration: int): string {
    name + ":" + IntToString(maxBooks) + ":" + IntToString(duration)
  }

  /** A user's text splits at its colons into the name, the maximum and the
      duration, when the name holds no colon. */
  lemma UserTextReadBack(name: string, maxBooks: int, duration: int)
    requires ':' !in name && IsInt32(maxBooks) && IsInt32(duration)
    ensures var parts := Split(UserText(name, maxBooks, duration), ':');
      |parts| == 3 && parts[0] == name &&
      ParseInt(parts[1]) == Some(maxBooks) && ParseInt(parts[2]) == Some(duration)
  {
    var r := [name, IntToString(maxBooks), IntToString(duration)];
    NoColon(maxBooks);
    NoColon(duration);
    assert r[1..][1..] == [IntToString(duration)];
    assert Join(r[1..], ':') == IntToString(maxBooks) + ":" + IntToString(duration);
    assert Join(r, ':') == UserText(name, maxBooks, duration);
    SplitJoin(r, ':');
    ParseIntToString(maxBooks);
    ParseIntToString(duration);
  }

  // ---------------------------------------------------------------------
  // Volumes available for loan

  predicate Lendable(v: Volume, title: string) {
    v.title == title && v.available
  }

  /** The first available volume of a title. */
  function FirstAvailable(vs: seq<Volume>, title: string): (r: Option<nat>)
    ensures r.Some? ==> r.value < |vs| && Lendable(vs[r.value], title)
    ensures r.Some? ==> forall j :: 0 <= j < r.value ==> !Lendable(vs[j], title)
    ensures r.None? <==> forall j :: 0 <= j < |vs| ==> !Lendable(vs[j], title)
    decreases |vs|
  {
    if vs == [] then None
    else
      var n := |vs| - 1;
      match FirstAvailable(vs[..n], title)
      case Some(k) => Some(k)
      case None => if Lendable(vs[n], title) then Some(n) else None
  }

  /** `availableVolumes`: the number of available volumes of a title. */
  function CountAvailable(vs: seq<Volume>, title: string): (c: nat)
    ensures c <= |vs|
    decreases |vs|
  {
    if vs == [] then 0
    else
      var n := |vs| - 1;
      CountAvailable(vs[..n], title) + if Lendable(vs[n], title) then 1 else 0
  }

  /** No volume is available exactly when there is no first one. */
  lemma {:induction false} NoneAvailable(vs: seq<Volume>, title: string)
    ensures CountAvailable(vs, title) == 0 <==> FirstAvailable(vs, title).None?
    decreases |vs|
  {
    if vs != [] {
      NoneAvailable(vs[..|vs| - 1], title);
    }
  }

  /** Replacing a volume changes the count by what the old and the new
      volume contribute. */
  lemma {:induction false} CountAvailableUpdate(vs: seq<Volume>, i: nat, v: Volume, title: string)
    requires i < |vs|
    ensures CountAvailable(vs[i := v], title) ==
      CountAvailable(vs, title) - (if Lendable(vs[i], title) then 1 else 0) + (if Lendable(v, title) then 1 else 0)
    decreases |vs|
  {
    var n := |vs| - 1;
    if i < n {
      assert vs[i := v][..n] == vs[..n][i := v];
      CountAvailableUpdate(vs[..n], i, v, title);
    } else {
      assert vs[i := v][..n] == vs[..n];
    }
  }

  // ---------------------------------------------------------------------
  // Loans

  predicate IsOpen(l: Loan, u: User) {
    l.user == u && l.returned.None?
  }

  /** The number of open loans of a user. */
  function OpenCount(ls: seq<Loan>, u: User): (c: nat)
    ensures c <= |ls|
    decreases |ls|
  {
    if ls == [] then 0
    else
      var n := |ls| - 1;
      OpenCount(ls[..n], u) + if IsOpen(ls[n], u) then 1 else 0
  }

  lemma OpenCountAppend(ls: seq<Loan>, l: Loan, u: User)
    ensures OpenCount(ls + [l], u) == OpenCount(ls, u) + if IsOpen(l, u) then 1 else 0
  {
    assert (ls + [l])[..|ls|] == ls;
  }

  /** Replacing a loan changes a user's open count by what the old and the
      new loan contribute. */
  lemma {:induction false} OpenCountUpdate(ls: seq<Loan>, i: nat, l: Loan, u: User)
    requires i < |ls|
    ensures OpenCount(ls[i := l], u) ==
      OpenCount(ls, u) - (if IsOpen(ls[i], u) then 1 else 0) + (if IsOpen(l, u) then 1 else 0)
    decreases |ls|
  {
    var n := |ls| - 1;
    if i < n {
      assert ls[i := l][..n] == ls[..n][i := l];
      OpenCountUpdate(ls[..n], i, l, u);
    } else {
      assert ls[i := l][..n] == ls[..n];
    }
  }

  /** Some loan of the user, open or closed, is past its due date. */
  predicate HasLate(ls: seq<Loan>, u: User, today: int) {
    exists j :: 0 <= j < |ls| && ls[j].user == u && today > ls[j].due
  }

  /** The state part of `getLoanInfo`, by its three tests in turn; a state
      no test sets prints as `null`. */
  function LoanState(l: Loan, today: int): (s: string)
    ensures l.returned.Some? ==> s == "closed"
    ensures l.returned.None? && today < l.due ==> s == "ongoing"
    ensures l.returned.None? && today > l.due ==> s == "overdue"
    ensures l.returned.None? && today == l.due ==> s == "null"
  {
    var s0: Option<string> := None;
    var s1 := if l.returned == None && today < l.due then Some("ongoing") else s0;
    var s2 := if l.returned == None && today > l.due then Some("overdue") else s1;
    var s3 := if l.returned != None then Some("closed") else s2;
    match s3
    case None => "null"
    case Some(s) => s
  }

  /** `dailyOverdue`: the 1-based numbers of the open loans due on day
      `today`, in loan order. */
  function DueToday(ls: seq<Loan>, today: int): seq<int>
    decreases |ls|
  {
    if ls == [] then []
    else
      var n := |ls| - 1;
      var l := ls[n];
      DueToday(ls[..n], today) + if l.returned.None? && l.due == today then [n + 1] else []
  }

  /** A number is listed exactly when it numbers an open loan due today,
      and the numbers ascend. */
  lemma {:induction false} DueTodayListed(ls: seq<Loan>, today: int)
    ensures forall k :: k in DueToday(ls, today) <==>
      1 <= k <= |ls| && ls[k - 1].returned.None? && ls[k - 1].due == today
    ensures forall i, j :: 0 <= i < j < |DueToday(ls, today)| ==> DueToday(ls, today)[i] < DueToday(ls, today)[j]
    decreases |ls|
  {
    if ls != [] {
      var n := |ls| - 1;
      DueTodayListed(ls[..n], today);
      var p := DueToday(ls[..n], today);
      forall i | 0 <= i < |p|
        ensures p[i] <= n
      {
        assert p[i] in p;
      }
    }
  }

  // ---------------------------------------------------------------------
  // The facade

  class LibraryMgmt {
    var today: int
    var volumes: seq<Volume>
    var users: seq<User>
    var loans: seq<Loan>

    /** Users have distinct names, and every loan is of a registered user
        and of an existing volume. */
    ghost predicate Valid()
      reads this
    {
      NoDuplicates(UserNames(users)) &&
      forall j :: 0 <= j < |loans| ==> loans[j].user in users && 0 <= loans[j].volume < |volumes|
    }

    /** Every user's counter equals their open loans. */
    ghost predicate CountsMatch()
      reads this, users
    {
      forall u | u in users :: IsInt32(u.booksLoaned) && u.booksLoaned == OpenCount(loans, u)
    }

    /** The constructor followed by `setCurrentDate(date)`. */
    constructor (date: int)
      ensures Valid() && CountsMatch()
      ensures today == date && volumes == [] && users == [] && loans == []
    {
      today, volumes, users, loans := date, [], [], [];
    }

    method SetCurrentDate(date: int)
      modifies this
      ensures today == date
      ensures volumes == old(volumes) && users == old(users) && loans == old(loans)
    {
      today := date;
    }

    /** `addDays`: the date moves forward by `n` days. */
    method AddDays(n: int)
      modifies this
      ensures today == old(today) + n
      ensures volumes == old(volumes) && users == old(users) && loans == old(loans)
    {
      today := today + n;
    }

    /** `addBook`: refused, changing nothing, for a known title; otherwise
        `n` available volumes are appended, numbered from the old count
        plus one. */
    method AddBook(title: string, n: int, authors: seq<string>) returns (r: Outcome<string>)
      requires Valid()
      modifies this
      ensures Valid()
      ensures r.Thrown? <==> title in Titles(old(volumes))
      ensures r.Thrown? ==> r.failure == LMException(TITLE_EXISTS) && volumes == old(volumes)
      ensures r.Done? ==> volumes == old(volumes) + Copies(Volume(title, authors, true), n)
      ensures r.Done? ==> r.value == RangeText(|old(volumes)| + 1, n)
      ensures today == old(today) && users == old(users) && loans == old(loans)
    {
      if title in Titles(volumes) {
        return Thrown(LMException(TITLE_EXISTS));
      }
      var minR := |volumes| + 1;
      AppendCopies(Volume(title, authors, true), n);
      r := Done(RangeText(minR, n));
    }

    /** The copying loop of `addBook`: `n` copies of `v` at the end of the
        volumes. */
    method AppendCopies(v: Volume, n: int)
      modifies this
      ensures volumes == old(volumes) + Copies(v, n)
      ensures today == old(today) && users == old(users) && loans == old(loans)
    {
      var i := 0;
      while i < n
        invariant 0 <= i && (i <= n || i == 0)
        invariant volumes == old(volumes) + Copies(v, i)
        invariant users == old(users) && loans == old(loans) && today == old(today)
      {
        CopiesSnoc(v, i);
        volumes := volumes + [v];
        i := i + 1;
      }
      assert Copies(v, i) == Copies(v, n);
    }

    /** `addUser`: refused, changing nothing, for a known name; otherwise a
        new user with no loans is appended. */
    method AddUser(name: string, maxBooks: int, duration: int) returns (r: Outcome<string>)
      requires Valid() && CountsMatch()
      modifies this
      ensures Valid() && CountsMatch()
      ensures r.Thrown? <==> name in UserNames(old(users))
      ensures r.Thrown? ==> r.failure == LMException(USER_EXISTS) && users == old(users)
      ensures r.Done? ==> |users| == |old(users)| + 1 && users[..|old(users)|] == old(users)
      ensures r.Done? ==> var u := users[|users| - 1];
        fresh(u) && u.name == name && u.maxBooks == maxBooks && u.loanDuration == duration && u.booksLoaned == 0
      ensures r.Done? ==> r.value == UserText(name, maxBooks, duration)
      ensures today == old(today) && volumes == old(volumes) && loans == old(loans)
    {
      if name in UserNames(users) {
        return Thrown(LMException(USER_EXISTS));
      }
      var u := new User(name, maxBooks, duration);
      assert UserNames(users + [u]) == UserNames(users) + [name];
      NoDuplicatesAppend(UserNames(users), name);
      OpenCountNone(loans, u);
      users := users + [u];
      forall v | v in users
        ensures IsInt32(v.booksLoaned) && v.booksLoaned == OpenCount(loans, v)
      {
        if v != u {
          assert v in old(users);
        }
      }
      r := Done(UserText(name, maxBooks, duration));
    }

    /** Whether some loan of `u`, open or closed, is past its due date. */
    method HasLateLoan(u: User) returns (late: bool)
      ensures late == HasLate(loans, u, today)
    {
      var i := 0;
      while i < |loans|
        invariant 0 <= i <= |loans|
        invariant forall j :: 0 <= j < i ==> !(loans[j].user == u && today > loans[j].due)
      {
        if loans[i].user == u && today > loans[i].due {
          return true;
        }
        i := i + 1;
      }
      late := false;
    }

    /** `addLoan`: an unknown user makes `get` throw; then the loan is
        refused, changing nothing, if the user is at the limit, if any loan
        of theirs is past due, or if no volume of the title is available, in
        that order. Otherwise the first available volume is lent, the user's
        counter goes up, and the new loan, due after the user's loan
        duration, gets the next 1-based number. */
    method AddLoan(user: string, title: string) returns (r: Outcome<int>)
      requires Valid()
      modifies this, users
      ensures Valid()
      ensures user !in UserNames(old(users)) ==> r == Thrown(NoSuchElement)
      ensures forall u | u in old(users) && u.name == user ::
        r == if !old(u.CanStillLoan()) then Thrown(LMException(AT_LIMIT))
             else if HasLate(old(loans), u, old(today)) then Thrown(LMException(NOT_RETURNED))
             else if FirstAvailable(old(volumes), title).None? then Thrown(LMException(NO_BOOK))
             else Done(|old(loans)| + 1)
      ensures r.Thrown? ==> volumes == old(volumes) && loans == old(loans)
      ensures r.Done? ==> (FirstAvailable(old(volumes), title).Some? && |loans| == |old(loans)| + 1 &&
        var k := FirstAvailable(old(volumes), title).value;
        var u := loans[|loans| - 1].user;
        u in old(users) && u.name == user &&
        volumes == old(volumes)[k := old(volumes)[k].(available := false)] &&
        loans == old(loans) + [Loan(u, k, old(today) + u.loanDuration, None)] &&
        u.booksLoaned == Wrap32(old(u.booksLoaned) + 1))
      ensures forall u | u in old(users) && (r.Thrown? || u.name != user) :: unchanged(u)
      ensures today == old(today) && users == old(users)
      ensures old(CountsMatch()) && |old(loans)| < INT_MAX ==> CountsMatch()
    {
      var ui := IndexOf(UserNames(users), user);
      if ui.None? {
        return Thrown(NoSuchElement);
      }
      var u := users[ui.value];
      assert forall w | w in users && w.name == user :: w == u;
      r := LoanTo(u, title);
    }

    /** `addLoan` once the user is found: the three refusals in turn, then
        the loan. */
    method LoanTo(u: User, title: string) returns (r: Outcome<int>)
      requires Valid() && u in users
      modifies this, u
      ensures Valid()
      ensures r == if !old(u.CanStillLoan()) then Thrown(LMException(AT_LIMIT))
        else if HasLate(old(loans), u, old(today)) then Thrown(LMException(NOT_RETURNED))
        else if FirstAvailable(old(volumes), title).None? then Thrown(LMException(NO_BOOK))
        else Done(|old(loans)| + 1)
      ensures r.Thrown? ==> volumes == old(volumes) && loans == old(loans) && unchanged(u)
      ensures r.Done? ==> (FirstAvailable(old(volumes), title).Some? &&
        var k := FirstAvailable(old(volumes), title).value;
        volumes == old(volumes)[k := old(volumes)[k].(available := false)] &&
        loans == old(loans) + [Loan(u, k, old(today) + u.loanDuration, None)] &&
        u.booksLoaned == Wrap32(old(u.booksLoaned) + 1))
      ensures today == old(today) && users == old(users)
      ensures old(CountsMatch()) && |old(loans)| < INT_MAX ==> CountsMatch()
    {
      if !u.CanStillLoan() {
        return Thrown(LMException(AT_LIMIT));
      }
      var late := HasLateLoan(u);
      if late {
        return Thrown(LMException(NOT_RETURNED));
      }
      var k := FirstAvailable(volumes, title);
      if k.None? {
        return Thrown(LMException(NO_BOOK));
      }
      var number := Lend(u, k.value);
      r := Done(number);
    }

    /** The successful end of `addLoan`: volume `k` is lent to `u`. */
    method Lend(u: User, k: nat) returns (number: int)
      requires Valid() && u in users && k < |volumes|
      modifies this, u
      ensures Valid()
      ensures number == |old(loans)| + 1
      ensures volumes == old(volumes)[k := old(volumes)[k].(available := false)]
      ensures loans == old(loans) + [Loan(u, k, old(today) + u.loanDuration, None)]
      ensures u.booksLoaned == Wrap32(old(u.booksLoaned) + 1)
      ensures today == old(today) && users == old(users)
      ensures old(CountsMatch()) && |old(loans)| < INT_MAX ==> CountsMatch()
    {
      ghost var matched := CountsMatch();
      volumes := volumes[k := volumes[k].(available := false)];
      u.Loan();
      number := |loans| + 1;
      var l := Loan(u, k, today + u.loanDuration, None);
      ghost var before := loans;
      loans := loans + [l];
      if matched && |before| < INT_MAX {
        forall w | w in users
          ensures IsInt32(w.booksLoaned) && w.booksLoaned == OpenCount(loans, w)
        {
          OpenCountAppend(before, l, w);
          if w != u {
            assert w.booksLoaned == old(w.booksLoaned);
          }
        }
      }
    }

    /** `getLoanInfo`: a number that names no loan throws; otherwise the
        user, the loan number, the 1-based volume number, the due date as
        `render` writes it, and the state. */
    function GetLoanInfo(loanIndex: int, render: int -> string): (r: Outcome<string>)
      reads this
      ensures r.Thrown? <==> !(1 <= loanIndex <= |loans|)
      ensures r.Thrown? ==> r.failure == IndexOutOfBounds
    {
      if !(1 <= loanIndex <= |loans|) then Thrown(IndexOutOfBounds)
      else
        var l := loans[loanIndex - 1];
        Done(l.user.name + ":" + IntToString(loanIndex) + ":" + IntToString(l.volume + 1) + ":" +
             render(l.due) + ":" + LoanState(l, today))
    }

    /** The loan text splits at its colons into its five fields, when
        neither the user's name nor the rendered date holds a colon. */
    lemma LoanInfoFields(loanIndex: int, render: int -> string)
      requires 1 <= loanIndex <= |loans|
      requires ':' !in loans[loanIndex - 1].user.name && ':' !in render(loans[loanIndex - 1].due)
      ensures var l := loans[loanIndex - 1];
        GetLoanInfo(loanIndex, render).Done? &&
        Split(GetLoanInfo(loanIndex, render).value, ':') ==
          [l.user.name, IntToString(loanIndex), IntToString(l.volume + 1), render(l.due), LoanState(l, today)]
    {
      var l := loans[loanIndex - 1];
      var r := [l.user.name, IntToString(loanIndex), IntToString(l.volume + 1), render(l.due), LoanState(l, today)];
      NoColon(loanIndex);
      NoColon(l.volume + 1);
      JoinFive(r);
      SplitJoin(r, ':');
    }

    /** `closeLoan`: a number that names no loan throws; otherwise the loan
        gets today as its return date, its volume becomes available, the
        user's counter goes down, and today is returned. Closing a loan a
        second time is not refused. */
    method CloseLoan(loanIndex: int) returns (r: Outcome<int>)
      requires Valid()
      modifies this, users
      ensures Valid()
      ensures r.Thrown? <==> !(1 <= loanIndex <= |old(loans)|)
      ensures r.Thrown? ==> r.failure == IndexOutOfBounds && volumes == old(volumes) && loans == old(loans)
      ensures r.Thrown? ==> forall u | u in old(users) :: unchanged(u)
      ensures r.Done? ==> r.value == today && var l := old(loans)[loanIndex - 1];
        loans == old(loans)[loanIndex - 1 := l.(returned := Some(today))] &&
        volumes == old(volumes)[l.volume := old(volumes)[l.volume].(available := true)] &&
        l.user.booksLoaned == Wrap32(old(l.user.booksLoaned) - 1) &&
        forall u | u in old(users) && u != l.user :: unchanged(u)
      ensures today == old(today) && users == old(users)
      ensures r.Done? && old(CountsMatch()) ==>
        (CountsMatch() <==> old(loans)[loanIndex - 1].returned.None?)
    {
      if !(1 <= loanIndex <= |loans|) {
        return Thrown(IndexOutOfBounds);
      }
      var u := loans[loanIndex - 1].user;
      Close(loanIndex - 1, u);
      r := Done(today);
    }

    /** The closing of loan `i` of user `u`. */
    method Close(i: nat, u: User)
      requires Valid() && i < |loans| && u == loans[i].user
      modifies this, u
      ensures Valid()
      ensures var l := old(loans[i]);
        loans == old(loans)[i := l.(returned := Some(today))] &&
        volumes == old(volumes)[l.volume := old(volumes)[l.volume].(available := true)]
      ensures u.booksLoaned == Wrap32(old(u.booksLoaned) - 1)
      ensures today == old(today) && users == old(users)
      ensures old(CountsMatch()) ==> (CountsMatch() <==> old(loans[i]).returned.None?)
    {
      ghost var matched := CountsMatch();
      var l := loans[i];
      ghost var before := loans;
      var closed := l.(returned := Some(today));
      loans := loans[i := closed];
      volumes := volumes[l.volume := volumes[l.volume].(available := true)];
      u.RemoveLoan();
      if matched {
        OpenCountUpdate(before, i, closed, u);
        if l.returned.None? {
          forall w | w in users
            ensures IsInt32(w.booksLoaned) && w.booksLoaned == OpenCount(loans, w)
          {
            OpenCountUpdate(before, i, closed, w);
            if w != u {
              assert w.booksLoaned == old(w.booksLoaned);
            }
          }
        } else {
          assert u in users && u.booksLoaned != OpenCount(loans, u);
        }
      }
    }

    /** `numberOfBooks`: an unknown user makes `get` throw; otherwise the
        number of the user's open loans, which is their counter as long as
        counters and loans agree. */
    method NumberOfBooks(user: string) returns (r: Outcome<int>)
      requires Valid()
      ensures user !in UserNames(users) <==> r == Thrown(NoSuchElement)
      ensures forall u | u in users && u.name == user :: r == Done(OpenCount(loans, u))
      ensures CountsMatch() ==> forall u | u in users && u.name == user :: r == Done(u.booksLoaned)
    {
      var ui := IndexOf(UserNames(users), user);
      if ui.None? {
        return Thrown(NoSuchElement);
      }
      var u := users[ui.value];
      var counter := 0;
      var i := 0;
      while i < |loans|
        invariant 0 <= i <= |loans|
        invariant counter == OpenCount(loans[..i], u)
      {
        assert loans[..i + 1][..i] == loans[..i];
        if loans[i].user == u && loans[i].returned.None? {
          counter := counter + 1;
        }
        i := i + 1;
      }
      assert loans[..i] == loans;
      r := Done(counter);
    }

    /** `dailyOverdue`. */
    method DailyOverdue() returns (r: seq<int>)
      ensures r == DueToday(loans, today)
    {
      r := [];
      var i := 0;
      while i < |loans|
        invariant 0 <= i <= |loans|
        invariant r == DueToday(loans[..i], today)
      {
        assert loans[..i + 1][..i] == loans[..i];
        if loans[i].returned.None? && loans[i].due == today {
          r := r + [i + 1];
        }
        i := i + 1;
      }
      assert loans[..i] == loans;
    }

    /** `availableVolumes`. */
    function AvailableVolumes(title: string): (c: int)
      reads this
      ensures 0 <= c <= |volumes|
      ensures c == 0 <==> FirstAvailable(volumes, title).None?
    {
      NoneAvailable(volumes, title);
      CountAvailable(volumes, title)
    }
  }

  /** A user unknown to any loan has none open. */
  lemma {:induction false} OpenCountNone(ls: seq<Loan>, u: User)
    requires forall j :: 0 <= j < |ls| ==> ls[j].user != u
    ensures OpenCount(ls, u) == 0
    decreases |ls|
  {
    if ls != [] {
      OpenCountNone(ls[..|ls| - 1], u);
    }
  }
}
