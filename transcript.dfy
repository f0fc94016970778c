/**
 * `get_transcript` of api/index.py: the provider's fragment texts are joined
 * with single spaces (`' '.join(...)`), and every exception raised while
 * fetching or reading the fragments is folded into `None`.
 */
module Transcript {
  import opened Wrappers

  /** One item of the provider's list: its `'text'` entry, or an item from which no string text can be read. */
  datatype Fragment = Text(text: string) | Unusable

  /** What the provider call produced for one video id: a list of fragments, or an exception. */
  datatype ProviderOutcome = ProviderError | Fetched(fragments: seq<Fragment>)

  /** `' '.join(parts)`. */
  function Join(parts: seq<string>): string
  {
    if |parts| == 0 then ""
    else if |parts| == 1 then parts[0]
    else parts[0] + " " + Join(parts[1..])
  }

  /**
   * Splitting at every single space, as `s.split(' ')` does: the partner
   * of `Join`. There is always at least one piece.
   */
  function Split(s: string): (r: seq<string>)
    ensures |r| >= 1
    decreases |s|
  {
    if |s| == 0 then [""]
    else
      var rest := Split(s[1..]);
      if s[0] == ' ' then [""] + rest
      else [[s[0]] + rest[0]] + rest[1..]
  }

  /** A space-free prefix is glued onto the first piece. */
  lemma {:induction false} SplitSpaceFreePrefix(t: string, u: string)
    requires ' ' !in t
    ensures Split(t + u) == [t + Split(u)[0]] + Split(u)[1..]
    decreases |t|
  {
    if |t| == 0 {
      assert t + u == u;
      assert t + Split(u)[0] == Split(u)[0];
      assert [Split(u)[0]] + Split(u)[1..] == Split(u);
    } else {
      assert (t + u)[1..] == t[1..] + u;
      SplitSpaceFreePrefix(t[1..], u);
      assert [t[0]] + (t[1..] + Split(u)[0]) == t + Split(u)[0];
    }
  }

  /** Splitting each text in turn and concatenating the pieces, in the texts' order. */
  function SplitEach(parts: seq<string>): seq<string>
  {
    if |parts| == 0 then [] else Split(parts[0]) + SplitEach(parts[1..])
  }

  /** A single space cuts exactly between the pieces of what precedes and follows it. */
  lemma {:induction false} SplitAtSpace(a: string, b: string)
    ensures Split(a + " " + b) == Split(a) + Split(b)
    decreases |a|
  {
    if |a| == 0 {
      assert a + " " + b == " " + b;
      assert (" " + b)[1..] == b;
    } else {
      assert (a + " " + b)[1..] == a[1..] + " " + b;
      SplitAtSpace(a[1..], b);
    }
  }

  /** Splitting the joined texts gives the pieces of every text, in the texts' order. */
  lemma {:induction false} SplitJoinEach(parts: seq<string>)
    requires |parts| >= 1
    ensures Split(Join(parts)) == SplitEach(parts)
    decreases |parts|
  {
    if |parts| == 1 {
      assert SplitEach(parts[1..]) == [];
      assert Split(parts[0]) + [] == Split(parts[0]);
    } else {
      SplitJoinEach(parts[1..]);
      SplitAtSpace(parts[0], Join(parts[1..]));
    }
  }

  /** A text without a space is a single piece. */
  lemma SplitSpaceFree(t: string)
    requires ' ' !in t
    ensures Split(t) == [t]
  {
    SplitSpaceFreePrefix(t, "");
    assert t + "" == t;
  }

  /** Joining texts that contain no space and splitting again gives the texts back. */
  lemma {:induction false} SplitJoin(parts: seq<string>)
    requires |parts| >= 1
    requires forall n :: 0 <= n < |parts| ==> ' ' !in parts[n]
    ensures Split(Join(parts)) == parts
  {
    SplitJoinEach(parts);
    SplitEachSpaceFree(parts);
  }

  /** Space-free texts are their own pieces. */
  lemma {:induction false} SplitEachSpaceFree(parts: seq<string>)
    requires forall n :: 0 <= n < |parts| ==> ' ' !in parts[n]
    ensures SplitEach(parts) == parts
    decreases |parts|
  {
    if |parts| > 0 {
      SplitSpaceFree(parts[0]);
      SplitEachSpaceFree(parts[1..]);
    }
  }

  /** The joined text is empty exactly when there is nothing to join or one empty text. */
  lemma {:induction false} JoinEmptyIff(parts: seq<string>)
    ensures Join(parts) == "" <==> |parts| == 0 || (|parts| == 1 && parts[0] == "")
  {
  }

  /** Appending a text adds it, after one space, at the end: the order of the fragments is kept. */
  lemma {:induction false} JoinSnoc(parts: seq<string>, t: string)
    requires |parts| >= 1
    ensures Join(parts + [t]) == Join(parts) + " " + t
    decreases |parts|
  {
    if |parts| == 1 {
      assert parts + [t] == [parts[0], t];
    } else {
      assert (parts + [t])[1..] == parts[1..] + [t];
      JoinSnoc(parts[1..], t);
    }
  }

  /** Every fragment carries a string text. */
  predicate AllText(fragments: seq<Fragment>) {
    forall n :: 0 <= n < |fragments| ==> fragments[n].Text?
  }

  /** `[item['text'] for item in transcript]`, for fragments that all carry a text. */
  function Texts(fragments: seq<Fragment>): (r: seq<string>)
    requires AllText(fragments)
    ensures |r| == |fragments|
    ensures forall n :: 0 <= n < |r| ==> r[n] == fragments[n].text
  {
    if |fragments| == 0 then [] else [fragments[0].text] + Texts(fragments[1..])
  }

  /** `get_transcript(vid_id)`, given what the provider produced for `vid_id`. */
  function GetTranscript(outcome: ProviderOutcome): (r: Option<string>)
    ensures r.None? <==> outcome.ProviderError? || !AllText(outcome.fragments)
    ensures r.Some? ==> r.value == Join(Texts(outcome.fragments))
  {
    match outcome
    case ProviderError => None
    case Fetched(fragments) =>
      if AllText(fragments) then Some(Join(Texts(fragments))) else None
  }

  /**
   * The captions text holds the fragment texts in the provider's order:
   * splitting it at spaces gives the pieces of each fragment text in turn,
   * which are the texts themselves when none contains a space; an empty
   * list of fragments gives the empty text.
   */
  lemma TranscriptKeepsOrder(fragments: seq<Fragment>)
    requires AllText(fragments)
    ensures GetTranscript(Fetched(fragments)).Some?
    ensures |fragments| == 0 ==> GetTranscript(Fetched(fragments)).value == ""
    ensures |fragments| >= 1 ==> Split(GetTranscript(Fetched(fragments)).value) == SplitEach(Texts(fragments))
    ensures |fragments| >= 1 && (forall n :: 0 <= n < |fragments| ==> ' ' !in fragments[n].text) ==>
      Split(GetTranscript(Fetched(fragments)).value) == Texts(fragments)
  {
    if |fragments| >= 1 {
      SplitJoinEach(Texts(fragments));
      if forall n :: 0 <= n < |fragments| ==> ' ' !in fragments[n].text {
        SplitEachSpaceFree(Texts(fragments));
      }
    }
  }
}
