/** Calendar event ids derived from Task handles, and back. */
module EventIds {
  import opened Basics

  const PREFIX: string := "task_"

  predicate Allowed(c: char) { 'a' <= c <= 'v' || '0' <= c <= '9' }

  /** What the Calendar accepts as a client-supplied id. */
  predicate ValidId(s: string)
  {
    5 <= |s| <= 1024 && forall i :: 0 <= i < |s| ==> Allowed(s[i])
  }

  function ExternalId(task: string): Option<string>
  {
    if PREFIX <= task && ValidId(task[|PREFIX|..]) then Some(task[|PREFIX|..]) else None
  }

  /** A captured Task uses the id of the event it came from, or none at all. */
  function ExternalIdFor(task: string, captured: Option<string>): Option<string>
  {
    match captured
    case Some(origin) => ExternalId(PREFIX + origin)
    case None => ExternalId(task)
  }

  /** Five to 1024 characters, each a letter up to `v` or a digit. */
  ghost predicate Accepted(id: string)
  {
    5 <= |id| <= 1024 && forall c :: c in id ==> 'a' <= c <= 'v' || '0' <= c <= '9'
  }

  lemma AcceptedIsValid(id: string)
    ensures Accepted(id) <==> ValidId(id)
  {
    assert forall i :: 0 <= i < |id| ==> id[i] in id;
  }

  /** The id and the handle determine each other. */
  lemma IdRoundTrip(task: string, id: string)
    ensures ExternalId(task) == Some(id) <==> task == "task_" + id && Accepted(id)
  {
    AcceptedIsValid(id);
    if PREFIX <= task { assert task == PREFIX + task[|PREFIX|..]; }
    if task == PREFIX + id { assert task[|PREFIX|..] == id; }
  }

  /** Two Task handles never derive one event id. */
  lemma IdsDistinct(a: string, b: string)
    requires ExternalId(a).Some? && ExternalId(a) == ExternalId(b)
    ensures a == b
  {
    IdRoundTrip(a, ExternalId(a).value);
    IdRoundTrip(b, ExternalId(b).value);
  }

  /** A captured origin is used exactly as it is or not at all; a derived id is no fallback. */
  lemma CapturedIdIsOrigin(task: string, origin: string)
    ensures ExternalIdFor(task, Some(origin)) == if Accepted(origin) then Some(origin) else None
  {
    IdRoundTrip(PREFIX + origin, origin);
  }
}
