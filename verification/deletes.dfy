/** Removing a record from a page's list after a confirmed delete request:
    `list.filter(x => x._id !== id)` runs only when the user confirmed and the request
    succeeded. The administration and profile pages also require a 200 status; the book
    administration page and the dashboard table accept any request that did not fail. */
module Deletes {
  import opened Wrappers
  import opened Lists

  /** The answer to the delete request: a status, or `None` when the request threw. */
  type Answer = Option<int>

  predicate Confirmed(confirmed: bool, answer: Answer) {
    confirmed && answer == Some(200)
  }

  /** The list after a delete attempt whose request succeeded or failed. */
  function AfterRequest<T>(xs: seq<T>, key: T -> string, id: string, confirmed: bool, succeeded: bool): (r: seq<T>)
    ensures confirmed && succeeded ==> forall i :: 0 <= i < |r| ==> key(r[i]) != id
    ensures !(confirmed && succeeded) ==> r == xs
    ensures multiset(r) <= multiset(xs)
  {
    if confirmed && succeeded then RemoveKey(xs, key, id) else xs
  }

  /** A delete that went through removes exactly the records with that id; the rest keep
      their order. */
  lemma AfterRequestKeepsOthers<T>(xs: seq<T>, more: seq<T>, key: T -> string, id: string, confirmed: bool, succeeded: bool, x: T)
    ensures x in AfterRequest(xs, key, id, confirmed, succeeded) <==> x in xs && (!(confirmed && succeeded) || key(x) != id)
    ensures AfterRequest(xs + more, key, id, confirmed, succeeded)
      == AfterRequest(xs, key, id, confirmed, succeeded) + AfterRequest(more, key, id, confirmed, succeeded)
  {
    RemoveKeyKeepsOthers(xs, key, id, x);
    RemoveKeyConcat(xs, more, key, id);
  }

  /** The list after a delete attempt on a page that also checks for a 200 status. */
  function AfterDelete<T>(xs: seq<T>, key: T -> string, id: string, confirmed: bool, answer: Answer): (r: seq<T>)
    ensures Confirmed(confirmed, answer) ==> forall i :: 0 <= i < |r| ==> key(r[i]) != id
    ensures !Confirmed(confirmed, answer) ==> r == xs
    ensures multiset(r) <= multiset(xs)
  {
    AfterRequest(xs, key, id, confirmed, answer == Some(200))
  }

  /** A confirmed delete removes exactly the records with that id; the rest keep their order. */
  lemma AfterDeleteKeepsOthers<T>(xs: seq<T>, more: seq<T>, key: T -> string, id: string, confirmed: bool, answer: Answer, x: T)
    ensures x in AfterDelete(xs, key, id, confirmed, answer) <==> x in xs && (!Confirmed(confirmed, answer) || key(x) != id)
    ensures AfterDelete(xs + more, key, id, confirmed, answer)
      == AfterDelete(xs, key, id, confirmed, answer) + AfterDelete(more, key, id, confirmed, answer)
  {
    AfterRequestKeepsOthers(xs, more, key, id, confirmed, answer == Some(200), x);
  }
}
