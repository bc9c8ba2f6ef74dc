/** Listing a directory page by page: all at once, or through a reader that hands
    out one page at a time. */
module Listing {
  import opened Base
  import opened Directories

  /** What a follow-up request carries: the search id and the name to resume after. */
  datatype Resume = Resume(sid: nat, name: seq<nat>)

  /** A server's answers: the reply to the first request, and to each follow-up given
      every follow-up so far. An answer is a transaction's parameter and data, or an error. */
  type Answers = seq<Resume> -> Result<(seq<byte>, seq<byte>)>

  function First(answers: Answers): (r: Result<Page>)
    ensures r.Ok? ==> r.value.end || r.value.info != []
  {
    var reply :- answers([]);
    FirstPage(reply.0, reply.1)
  }

  function Following(answers: Answers, asked: seq<Resume>): (r: Result<Page>)
    requires asked != []
    ensures r.Ok? ==> r.value.end || r.value.info != []
  {
    var reply :- answers(asked);
    NextPage(reply.0, reply.1, asked[|asked| - 1].sid)
  }

  function LastName(info: seq<DirInfo>): seq<nat>
    requires info != []
  {
    info[|info| - 1].name
  }

  /** Going on from a partial listing, for at most this many more requests. */
  function ListFrom(answers: Answers, result: seq<DirInfo>, sid: nat, asked: seq<Resume>,
                    rounds: nat): (Result<seq<DirInfo>>, seq<Resume>)
    requires result != []
    decreases rounds
  {
    if rounds == 0 then (Err(Timeout), asked)
    else
      var asked' := asked + [Resume(sid, LastName(result))];
      match Following(answers, asked')
      case Err(e) => (Err(e), asked')
      case Ok(page) =>
        if page.end then (Ok(result + page.info), asked')
        else ListFrom(answers, result + page.info, sid, asked', rounds - 1)
  }

  /** The whole listing, and the follow-up requests it sends. */
  function ListAll(answers: Answers, rounds: nat): (Result<seq<DirInfo>>, seq<Resume>) {
    match First(answers)
    case Err(e) => (Err(e), [])
    case Ok(page) => if page.end then (Ok(page.info), []) else ListFrom(answers, page.info, page.sid, [], rounds)
  }

  /** Concatenation of pages. */
  function Joined(pages: seq<seq<DirInfo>>): seq<DirInfo> {
    if pages == [] then [] else Joined(pages[..|pages| - 1]) + pages[|pages| - 1]
  }

  lemma {:induction false} JoinedOne(page: seq<DirInfo>)
    ensures Joined([page]) == page
  {
    assert [page][..0] == [];
    assert [] + page == page;
  }

  lemma {:induction false} JoinedMore(pages: seq<seq<DirInfo>>, page: seq<DirInfo>)
    ensures Joined(pages + [page]) == Joined(pages) + page
    ensures page != [] ==> LastName(Joined(pages) + page) == LastName(page)
  {
    assert (pages + [page])[..|pages|] == pages;
  }

  // ----- What a listing is -----

  function Infos(pages: seq<Page>): (infos: seq<seq<DirInfo>>)
    ensures |infos| == |pages|
  {
    seq(|pages|, i requires 0 <= i < |pages| => pages[i].info)
  }

  lemma {:induction false} InfosMore(pages: seq<Page>, page: Page)
    ensures Infos(pages + [page]) == Infos(pages) + [page.info]
  {
  }

  /** The follow-up after a page that is not the end, and the page it brought. */
  ghost predicate Followed(answers: Answers, asked: seq<Resume>, pages: seq<Page>, i: nat)
    requires i < |asked| && |pages| == |asked| + 1
  {
    && Following(answers, asked[..i + 1]) == Ok(pages[i + 1])
    && !pages[i].end && pages[i].info != []
    && asked[i] == Resume(pages[0].sid, pages[i].info[|pages[i].info| - 1].name)
  }

  /** The server gave the first page and one page for each follow-up; each page but the
      last was not the end, and the follow-up after it carried the first page's search id
      and the name of that page's last entry. */
  ghost predicate Served(answers: Answers, asked: seq<Resume>, pages: seq<Page>) {
    && |pages| == |asked| + 1
    && First(answers) == Ok(pages[0])
    && forall i :: 0 <= i < |asked| ==> Followed(answers, asked, pages, i)
  }

  lemma {:induction false} ServedMore(answers: Answers, asked: seq<Resume>, pages: seq<Page>, page: Page)
    requires Served(answers, asked, pages) && !pages[|asked|].end && pages[|asked|].info != []
    ensures
      var asked' := asked + [Resume(pages[0].sid, LastName(pages[|asked|].info))];
      Following(answers, asked') == Ok(page) ==> Served(answers, asked', pages + [page])
  {
    hide First, Following;
    var asked' := asked + [Resume(pages[0].sid, LastName(pages[|asked|].info))];
    if Following(answers, asked') == Ok(page) {
      forall i | 0 <= i < |asked'| ensures Followed(answers, asked', pages + [page], i) {
        if i < |asked| {
          assert Followed(answers, asked, pages, i);
          assert asked'[..i + 1] == asked[..i + 1];
        } else {
          assert asked'[..i + 1] == asked';
        }
      }
    }
  }

  lemma {:induction false} LastOfJoined(pages: seq<Page>)
    requires pages != [] && pages[|pages| - 1].info != []
    ensures Joined(Infos(pages)) != []
    ensures LastName(Joined(Infos(pages))) == LastName(pages[|pages| - 1].info)
  {
  }

  /** Why a listing ends, by the pages it was given: the last is the end; or the next
      request failed; or it has made all the follow-ups it may. */
  ghost predicate Ended(answers: Answers, r: Result<seq<DirInfo>>, asked: seq<Resume>, pages: seq<Page>, most: nat) {
    match r
    case Ok(entries) =>
      Served(answers, asked, pages) && pages[|asked|].end && entries == Joined(Infos(pages)) && |asked| <= most
    case Err(e) =>
      || (First(answers) == Err(e) && asked == [])
      || (&& asked != [] && Served(answers, asked[..|asked| - 1], pages)
          && !pages[|asked| - 1].end && pages[|asked| - 1].info != []
          && asked[|asked| - 1] == Resume(pages[0].sid, LastName(pages[|asked| - 1].info))
          && Following(answers, asked) == Err(e) && |asked| <= most)
      || (Served(answers, asked, pages) && !pages[|asked|].end && e == Timeout && |asked| == most)
  }

  lemma {:induction false} FollowingFilled(answers: Answers, asked: seq<Resume>)
    requires asked != []
    ensures Following(answers, asked).Ok? ==>
              Following(answers, asked).value.end || Following(answers, asked).value.info != []
  {
  }

  lemma {:induction false} ListFromEnds(answers: Answers, asked: seq<Resume>, pages: seq<Page>, rounds: nat)
    returns (all: seq<Page>)
    requires Served(answers, asked, pages) && !pages[|asked|].end && pages[|asked|].info != []
    ensures Joined(Infos(pages)) != []
    ensures
      var (r, asked') := ListFrom(answers, Joined(Infos(pages)), pages[0].sid, asked, rounds);
      Ended(answers, r, asked', all, |asked| + rounds)
    decreases rounds
  {
    hide First, Following, Joined;
    all := pages;
    LastOfJoined(pages);
    if rounds > 0 {
      var asked' := asked + [Resume(pages[0].sid, LastName(pages[|asked|].info))];
      assert asked'[..|asked|] == asked;
      var page := Following(answers, asked');
      if page.Ok? {
        FollowingFilled(answers, asked');
        ServedMore(answers, asked, pages, page.value);
        InfosMore(pages, page.value);
        JoinedMore(Infos(pages), page.value.info);
        all := pages + [page.value];
        if !page.value.end {
          all := ListFromEnds(answers, asked', pages + [page.value], rounds - 1);
        }
      }
    }
  }

  lemma {:induction false} FirstFilled(answers: Answers)
    ensures First(answers).Ok? ==> First(answers).value.end || First(answers).value.info != []
  {
  }

  /** Every listing ends in one of these ways. */
  lemma {:induction false} ListAllEnds(answers: Answers, rounds: nat) returns (pages: seq<Page>)
    ensures
      var (r, asked) := ListAll(answers, rounds);
      Ended(answers, r, asked, pages, rounds)
  {
    hide First, Following, ListFrom, Joined;
    pages := [];
    FirstFilled(answers);
    if First(answers).Ok? {
      var page := First(answers).value;
      pages := [page];
      JoinedOne(page.info);
      assert Infos([page]) == [page.info];
      if !page.end {
        pages := ListFromEnds(answers, [], [page], rounds);
      }
    }
  }

  /** Two accounts of one server agree as far as both go. */
  lemma {:induction false} ServedAgree(answers: Answers, asked: seq<Resume>, pages: seq<Page>, asked': seq<Resume>,
                                       pages': seq<Page>, n: nat)
    requires Served(answers, asked, pages) && Served(answers, asked', pages') && n <= |asked| && n <= |asked'|
    ensures asked[..n] == asked'[..n] && pages[..n + 1] == pages'[..n + 1]
    decreases n
  {
    hide First, Following;
    if n > 0 {
      ServedAgree(answers, asked, pages, asked', pages', n - 1);
      assert pages[..n][n - 1] == pages'[..n][n - 1] && pages[..n][0] == pages'[..n][0];
      assert Followed(answers, asked, pages, n - 1) && Followed(answers, asked', pages', n - 1);
      assert asked[n - 1] == asked'[n - 1];
      assert asked[..n] == asked[..n - 1] + [asked[n - 1]] && asked'[..n] == asked'[..n - 1] + [asked'[n - 1]];
      assert asked[..n - 1 + 1] == asked[..n];
      assert asked'[..n - 1 + 1] == asked'[..n];
      assert pages[n] == pages'[n];
      assert pages[..n + 1] == pages[..n] + [pages[n]] && pages'[..n + 1] == pages'[..n] + [pages'[n]];
    }
  }

  /** The follow-up after a page that is not the last was answered. */
  lemma {:induction false} NextAnswered(answers: Answers, asked: seq<Resume>, pages: seq<Page>, n: nat)
    requires Served(answers, asked, pages) && n < |asked|
    ensures !pages[n].end && pages[n].info != []
    ensures Following(answers, asked[..n] + [Resume(pages[0].sid, LastName(pages[n].info))]).Ok?
  {
    hide First, Following;
    assert Followed(answers, asked, pages, n);
    assert asked[..n + 1] == asked[..n] + [asked[n]];
  }

  /** No account goes on past a page that is the end. */
  lemma {:induction false} EndIsLast(answers: Answers, asked: seq<Resume>, pages: seq<Page>, asked': seq<Resume>,
                                     pages': seq<Page>)
    requires Served(answers, asked, pages) && Served(answers, asked', pages') && pages[|asked|].end
    ensures |asked'| <= |asked| && asked' == asked[..|asked'|] && pages' == pages[..|asked'| + 1]
    ensures pages'[|asked'|].end <==> asked' == asked
  {
    hide First, Following;
    var n := if |asked'| < |asked| then |asked'| else |asked|;
    ServedAgree(answers, asked, pages, asked', pages', n);
    assert pages[n] == pages[..n + 1][n] && pages'[n] == pages'[..n + 1][n];
    if n < |asked| {
      NextAnswered(answers, asked, pages, n);
    }
    if n < |asked'| {
      NextAnswered(answers, asked', pages', n);
    }
  }

  /** An account that reaches the end is the only one. */
  lemma {:induction false} EndsOnce(answers: Answers, rounds: nat, r: Result<seq<DirInfo>>, asked': seq<Resume>,
                                    all: seq<Page>, asked: seq<Resume>, pages: seq<Page>)
    requires Ended(answers, r, asked', all, rounds)
    requires |asked| <= rounds && Served(answers, asked, pages) && pages[|asked|].end
    ensures r == Ok(Joined(Infos(pages))) && asked' == asked
  {
    hide First, Following, Joined;
    if Served(answers, asked', all) {
      EndIsLast(answers, asked, pages, asked', all);
      assert asked[..|asked|] == asked && pages[..|pages|] == pages;
    } else if r.Err? && asked' != [] && Served(answers, asked'[..|asked'| - 1], all) {
      var n := |asked'| - 1;
      assert asked' == asked'[..n] + [asked'[n]];
      EndIsLast(answers, asked, pages, asked'[..n], all);
      NextAnswered(answers, asked, pages, n);
    }
  }

  /** A listing succeeds if and only if the server's pages, asked for one after the other,
      come to an end within the follow-ups allowed; it is then all their entries, in order. */
  lemma {:induction false} ListedIff(answers: Answers, rounds: nat, entries: seq<DirInfo>, asked: seq<Resume>)
    ensures ListAll(answers, rounds) == (Ok(entries), asked) <==>
              && |asked| <= rounds
              && exists pages: seq<Page> ::
                   Served(answers, asked, pages) && pages[|asked|].end && entries == Joined(Infos(pages))
  {
    hide First, Following, Joined, ListAll;
    var all := ListAllEnds(answers, rounds);
    var (r, asked') := ListAll(answers, rounds);
    if pages: seq<Page> :|
      |asked| <= rounds && Served(answers, asked, pages) && pages[|asked|].end && entries == Joined(Infos(pages))
    {
      EndsOnce(answers, rounds, r, asked', all, asked, pages);
    }
  }

  // ----- The loop and the reader -----

  class Directory {
    const answers: Answers
    var asked: seq<Resume>

    constructor (answers: Answers)
      ensures this.answers == answers && asked == []
    {
      this.answers, asked := answers, [];
    }

    method FindFirst() returns (r: Result<Page>)
      ensures r == First(answers)
    {
      var reply := answers([]);
      if reply.Err? {
        return Err(reply.error);
      }
      r := ParseFindFirst2(reply.value.0, reply.value.1);
    }

    method FindNext(sid: nat, lastFile: seq<nat>) returns (r: Result<Page>)
      modifies this
      ensures asked == old(asked) + [Resume(sid, lastFile)]
      ensures r == Following(answers, asked)
    {
      asked := asked + [Resume(sid, lastFile)];
      var reply := answers(asked);
      if reply.Err? {
        return Err(reply.error);
      }
      r := ParseFindNext2(reply.value.0, reply.value.1, sid);
    }

    /** The listing loop, cut off after so many follow-ups as a caller's timeout would.
        Taking the last name of the result never fails: the pages so far were not empty. */
    method List(rounds: nat) returns (r: Result<seq<DirInfo>>)
      requires asked == []
      modifies this
      ensures (r, asked) == ListAll(answers, rounds)
      ensures exists pages: seq<Page> :: Ended(answers, r, asked, pages, rounds)
    {
      hide First, Following, FirstPage, NextPage, Ended;
      ghost var pages := ListAllEnds(answers, rounds);
      var first := FindFirst();
      if first.Err? {
        return Err(first.error);
      }
      if first.value.end {
        return Ok(first.value.info);
      }
      var sid := first.value.sid;
      var result := first.value.info;
      var left := rounds;
      while left > 0
        invariant result != []
        invariant ListAll(answers, rounds) == ListFrom(answers, result, sid, asked, left)
        decreases left
      {
        var reply := FindNext(sid, LastName(result));
        if reply.Err? {
          return Err(reply.error);
        }
        result := result + reply.value.info;
        if reply.value.end {
          return Ok(result);
        }
        left := left - 1;
      }
      return Err(Timeout);
    }
  }

  class DirectoryReader {
    const sid: nat
    var pending: Option<seq<DirInfo>>
    var lastFile: Option<seq<nat>>
    var end: bool

    /** A reader with more to ask for knows where to resume. */
    ghost predicate Valid()
      reads this
    {
      !end ==> lastFile.Some?
    }

    constructor (reply: Page)
      requires reply.end || reply.info != []
      ensures Valid() && pending == Some(reply.info) && end == reply.end && sid == reply.sid
      ensures !reply.end ==> lastFile == Some(LastName(reply.info))
    {
      sid := reply.sid;
      pending := Some(reply.info);
      lastFile := if reply.info == [] then None else Some(LastName(reply.info));
      end := reply.end;
    }

    /** The next page, or nothing at the end. The resume point is never lost, and an
        error comes from the server and leaves the reader where it was. */
    method Next(dir: Directory) returns (r: Result<Option<seq<DirInfo>>>)
      requires Valid()
      modifies this, dir
      ensures Valid()
      ensures old(pending).Some? ==>
                && r == Ok(old(pending)) && pending == None
                && dir.asked == old(dir.asked) && end == old(end) && lastFile == old(lastFile)
      ensures old(pending).None? && old(end) ==> r == Ok(None) && dir.asked == old(dir.asked) && pending == None && end
      ensures old(pending).None? && !old(end) ==>
                && dir.asked == old(dir.asked) + [Resume(sid, old(lastFile).value)]
                && pending == None
                && (match Following(dir.answers, dir.asked)
                    case Err(e) => r == Err(e) && !end && lastFile == old(lastFile)
                    case Ok(page) =>
                      && r == Ok(Some(page.info)) && end == page.end
                      && (!end ==> page.info != [] && lastFile == Some(LastName(page.info))))
    {
      if pending.Some? {
        r := Ok(pending);
        pending := None;
        return;
      }
      if end {
        return Ok(None);
      }
      if lastFile.None? {
        assert false;
      }
      var reply := dir.FindNext(sid, lastFile.value);
      if reply.Err? {
        return Err(reply.error);
      }
      end := reply.value.end;
      lastFile := if reply.value.info == [] then None else Some(LastName(reply.value.info));
      return Ok(Some(reply.value.info));
    }
  }

  /** Draining a reader is listing: the same entries, the same resume names sent, and
      the same error where there is one. What it hands out is the server's own pages, one
      after the other, down to the one that is the end. */
  method OpenAndDrain(dir: Directory, rounds: nat)
    returns (r: Result<seq<seq<DirInfo>>>, ghost served: seq<Page>)
    requires dir.asked == []
    modifies dir
    ensures
      var (listed, asked) := ListAll(dir.answers, rounds);
      && dir.asked == asked
      && match r case Ok(pages) => listed == Ok(Joined(pages)) case Err(e) => listed == Err(e)
    ensures r.Ok? ==>
              Served(dir.answers, dir.asked, served) && served[|dir.asked|].end && r.value == Infos(served)
  {
    hide First, Following, FirstPage, NextPage, Joined;
    var first := dir.FindFirst();
    if first.Err? {
      return Err(first.error), [];
    }
    var reader := new DirectoryReader(first.value);
    var page := reader.Next(dir);
    var pages := [page.value.value];
    served := [first.value];
    JoinedOne(first.value.info);
    var left := rounds;
    while !reader.end
      invariant reader.Valid() && fresh(reader) && reader.pending == None && reader.sid == first.value.sid
      invariant !reader.end ==>
                  && Joined(pages) != [] && reader.lastFile == Some(LastName(Joined(pages)))
                  && ListAll(dir.answers, rounds) == ListFrom(dir.answers, Joined(pages), reader.sid, dir.asked, left)
      invariant reader.end ==> ListAll(dir.answers, rounds) == (Ok(Joined(pages)), dir.asked)
      invariant Served(dir.answers, dir.asked, served) && served[0] == first.value && pages == Infos(served)
      invariant reader.end == served[|dir.asked|].end
      invariant !reader.end ==>
                  served[|dir.asked|].info != [] && reader.lastFile == Some(LastName(served[|dir.asked|].info))
      decreases if reader.end then 0 else left + 1
    {
      if left == 0 {
        return Err(Timeout), served;
      }
      ghost var before := dir.asked;
      page := reader.Next(dir);
      if page.Err? {
        return Err(page.error), served;
      }
      ghost var got := Following(dir.answers, dir.asked).value;
      ServedMore(dir.answers, before, served, got);
      InfosMore(served, got);
      served := served + [got];
      left := left - 1;
      JoinedMore(pages, page.value.value);
      pages := pages + [page.value.value];
    }
    var done := reader.Next(dir);
    assert done == Ok(None);
    return Ok(pages), served;
  }
}
