/** Problem 2, the pure part: de-duplication of the accumulated contacts,
    the displayed subset (even positions, United States only) and the view
    type taken from the route. */
module Contacts {
  import opened Seqs
  import opened Strings

  /** A contact as the API returns it; two contacts are the same when all
      their fields are equal. */
  datatype Contact = Contact(id: int, phone: string, countryName: string)

  const UNITED_STATES: string := "United States"

  /** The view type whose results are restricted to the United States. */
  const US_VIEW: string := "us"

  // ---------------------------------------------------------------------------
  // removeDuplicate

  /** The contacts of `s` without repeats, each kept at its first occurrence
      (a `Set` iterates in insertion order). */
  function RemoveDuplicate(s: seq<Contact>): (r: seq<Contact>)
    ensures NoDuplicates(r)
    ensures forall c :: c in r <==> c in s
  {
    if s == [] then []
    else
      var init, last := s[..|s| - 1], s[|s| - 1];
      assert s == init + [last];
      var r := RemoveDuplicate(init);
      if last in r then r else r + [last]
  }

  /** The kept contacts appear in the order of their first occurrence in the input. */
  lemma {:induction false} RemoveDuplicateKeepsFirstOccurrenceOrder(s: seq<Contact>)
    ensures forall i, j :: 0 <= i < j < |RemoveDuplicate(s)| ==>
              FirstIndex(s, RemoveDuplicate(s)[i]) < FirstIndex(s, RemoveDuplicate(s)[j])
  {
    if s != [] {
      var init, last := s[..|s| - 1], s[|s| - 1];
      assert s == init + [last];
      RemoveDuplicateKeepsFirstOccurrenceOrder(init);
      var r0, r := RemoveDuplicate(init), RemoveDuplicate(s);
      if last in r0 {
        assert r == r0;
        forall i, j | 0 <= i < j < |r| ensures FirstIndex(s, r[i]) < FirstIndex(s, r[j]) {
          FirstIndexOfPrefix(init, [last], r0[i]);
          FirstIndexOfPrefix(init, [last], r0[j]);
        }
      } else {
        assert r == r0 + [last];
        FirstIndexOfAppended(init, last);
        forall i, j | 0 <= i < j < |r| ensures FirstIndex(s, r[i]) < FirstIndex(s, r[j]) {
          assert r[i] == r0[i];
          FirstIndexOfPrefix(init, [last], r0[i]);
          if j < |r0| {
            assert r[j] == r0[j];
            FirstIndexOfPrefix(init, [last], r0[j]);
          }
        }
      }
    }
  }

  /** A list without repeats is left as it is. */
  lemma {:induction false} RemoveDuplicateOfDistinct(s: seq<Contact>)
    requires NoDuplicates(s)
    ensures RemoveDuplicate(s) == s
  {
    if s != [] {
      var init, last := s[..|s| - 1], s[|s| - 1];
      RemoveDuplicateOfDistinct(init);
      assert last !in init;
      assert s == init + [last];
    }
  }

  /** De-duplicating twice is de-duplicating once. */
  lemma RemoveDuplicateIdempotent(s: seq<Contact>)
    ensures RemoveDuplicate(RemoveDuplicate(s)) == RemoveDuplicate(s)
  {
    RemoveDuplicateOfDistinct(RemoveDuplicate(s));
  }

  /** Appending more contacts only extends the de-duplicated list: what is
      shown before a page arrives stays in place after it. */
  lemma {:induction false} RemoveDuplicateOfAppend(a: seq<Contact>, b: seq<Contact>)
    ensures RemoveDuplicate(a) <= RemoveDuplicate(a + b)
    decreases |b|
  {
    if b == [] {
      assert a + b == a;
    } else {
      var init := b[..|b| - 1];
      RemoveDuplicateOfAppend(a, init);
      assert (a + b)[..|a + b| - 1] == a + init;
    }
  }

  /** Appending contacts that are all shown already changes nothing that is
      shown: the repeats stay in the raw list only. */
  lemma {:induction false} RemoveDuplicateOfAppendSeen(a: seq<Contact>, b: seq<Contact>)
    requires forall c :: c in b ==> c in a
    ensures RemoveDuplicate(a + b) == RemoveDuplicate(a)
    decreases |b|
  {
    if b == [] {
      assert a + b == a;
    } else {
      var init, last := b[..|b| - 1], b[|b| - 1];
      RemoveDuplicateOfAppendSeen(a, init);
      assert (a + b)[..|a + b| - 1] == a + init;
      assert (a + b)[|a + b| - 1] == last;
    }
  }

  // ---------------------------------------------------------------------------
  // the `results` memo

  /** The position test of the even filter, on the 1-based position `number`. */
  predicate KeptPosition(number: int) {
    number != 0 && number % 2 == 0
  }

  /** `contacts.filter((_, i) => KeptPosition(i + 1))`. */
  function EvenPositions(s: seq<Contact>): (r: seq<Contact>)
    ensures |r| == |s| / 2
  {
    if s == [] then []
    else EvenPositions(s[..|s| - 1]) + (if KeptPosition(|s|) then [s[|s| - 1]] else [])
  }

  /** The even filter keeps exactly the contacts at 1-based positions 2, 4, 6, ... */
  lemma {:induction false} EvenPositionsExact(s: seq<Contact>)
    ensures |EvenPositions(s)| == |s| / 2
    ensures forall k :: 0 <= k < |s| / 2 ==> EvenPositions(s)[k] == s[2 * k + 1]
  {
    if s != [] {
      var n, init := |s|, s[..|s| - 1];
      EvenPositionsExact(init);
      var tail := if KeptPosition(n) then [s[n - 1]] else [];
      assert EvenPositions(s) == EvenPositions(init) + tail;
      assert |tail| == n / 2 - (n - 1) / 2;
      forall k | 0 <= k < n / 2 ensures EvenPositions(s)[k] == s[2 * k + 1] {
        if k < (n - 1) / 2 {
          assert EvenPositions(s)[k] == EvenPositions(init)[k] == init[2 * k + 1];
        } else {
          assert n % 2 == 0 && 2 * k + 1 == n - 1;
        }
      }
    }
  }

  /** The first step of the memo: the even filter when the toggle is on. */
  function Step1(contacts: seq<Contact>, isEven: bool): seq<Contact> {
    if isEven then EvenPositions(contacts) else contacts
  }

  /** The displayed contacts for a view type and the even toggle. */
  function Results(contacts: seq<Contact>, viewType: string, isEven: bool): seq<Contact> {
    var step1 := Step1(contacts, isEven);
    if viewType == US_VIEW then Filter(step1, (c: Contact) => c.countryName == UNITED_STATES)
    else step1
  }

  /** What the memo promises: in the `us` view exactly the United States
      contacts of the first step, in their order; in any other view the first
      step itself; the input untouched when neither applies. */
  lemma ResultsSpec(contacts: seq<Contact>, viewType: string, isEven: bool)
    ensures var r := Results(contacts, viewType, isEven);
            var step1 := Step1(contacts, isEven);
            && IsSubsequence(r, step1)
            && (viewType == US_VIEW ==> forall c :: c in r <==> c in step1 && c.countryName == UNITED_STATES)
            && (viewType == US_VIEW ==>
                  forall c :: multiset(r)[c] == if c.countryName == UNITED_STATES then multiset(step1)[c] else 0)
            && (viewType != US_VIEW ==> r == step1)
            && (!isEven && viewType != US_VIEW ==> r == contacts)
  {
    var step1 := Step1(contacts, isEven);
    var p := (c: Contact) => c.countryName == UNITED_STATES;
    FilterIsSubsequence(step1, p);
    FilterMembership(step1, p);
    FilterCount(step1, p);
    IsSubsequenceOfItself(step1);
  }

  /** With the toggle on and any view other than `us`, the results are the
      contacts at 1-based positions 2, 4, 6, ... */
  lemma EvenResults(contacts: seq<Contact>, viewType: string)
    requires viewType != US_VIEW
    ensures |Results(contacts, viewType, true)| == |contacts| / 2
    ensures forall k :: 0 <= k < |contacts| / 2 ==> Results(contacts, viewType, true)[k] == contacts[2 * k + 1]
  {
    EvenPositionsExact(contacts);
  }

  // ---------------------------------------------------------------------------
  // the view type

  /** `path.split('/').at(-1)`: the text after the last slash, or all of it. */
  function LastSegment(path: string): (seg: string)
    ensures '/' !in seg
    ensures |seg| <= |path| && seg == path[|path| - |seg|..]
    ensures |seg| == |path| || path[|path| - |seg| - 1] == '/'
  {
    if path == [] then []
    else if path[|path| - 1] == '/' then []
    else LastSegment(path[..|path| - 1]) + [path[|path| - 1]]
  }

  /** The view type: the last path segment, lower-cased. */
  function ViewType(pathname: string): (v: string)
    ensures '/' !in v && |v| <= |pathname|
  {
    ToLower(LastSegment(pathname))
  }

  /** A route ending in `/<segment>` selects that segment as the view type. */
  lemma {:induction false} LastSegmentAfterSlash(prefix: string, segment: string)
    requires '/' !in segment
    ensures LastSegment(prefix + "/" + segment) == segment
    decreases |segment|
  {
    var path := prefix + "/" + segment;
    if segment == [] {
      assert path[|path| - 1] == '/';
    } else {
      var init := segment[..|segment| - 1];
      LastSegmentAfterSlash(prefix, init);
      assert path[..|path| - 1] == prefix + "/" + init;
      assert segment == init + [segment[|segment| - 1]];
    }
  }

  /** A route `<prefix>/<segment>` selects its lower-cased last segment as
      the view type, and so the `us` view exactly when the segment spells
      "us" in either case. */
  lemma RouteViewTypes(prefix: string, segment: string)
    requires '/' !in segment
    ensures ViewType(prefix + "/" + segment) == ToLower(segment)
    ensures ViewType(prefix + "/" + segment) == US_VIEW <==>
            |segment| == 2 && forall i :: 0 <= i < 2 ==> SameLetterIgnoringCase(segment[i], US_VIEW[i])
  {
    LastSegmentAfterSlash(prefix, segment);
    ToLowerEquals(segment, US_VIEW);
  }
}
