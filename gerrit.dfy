/** The adapter to the review server's REST interface: one GET per tracked
    change, the mapping of a failed or refused request, the removal of the
    anti-XSSI prefix, and the conversion of the reply into a change record.
    The transport and `JSON.parse` are oracles held in a `Remote`. */
module Gerrit {
  import opened Records
  import opened Lists
  import Text

  /** What the HTTP client yields for one request: it rejects (a network
      error, or a status the client's default check refuses, outside 2xx),
      or it resolves with a status and a body. */
  datatype Response = Thrown | Reply(status: int, body: string)

  /** One label of a reply: the `value` of each entry of its `all` list. */
  datatype RawLabel = RawLabel(all: Option<seq<int>>)

  /** The four keys of a parsed reply that the conversion picks. */
  datatype RawChange = RawChange(
    number: Option<int>,
    subject: Option<string>,
    status: Option<string>,
    labels: Option<map<string, RawLabel>>)

  /** The server's reply to each URL, and the JSON parser (`None`: it throws). */
  datatype Remote = Remote(reply: string -> Response, parse: string -> Option<RawChange>)

  const XssiPrefix: string := ")]}'"
  const VerifiedLabel: string := "Verified"
  const CodeReviewLabel: string := "Code-Review"

  /** A value inside a template literal; an absent one prints as `undefined`. */
  function Render(v: Option<string>): string {
    if v.Some? then v.value else "undefined"
  }

  function QueryUrl(endpoint: Option<string>, chid: Option<string>): string {
    Render(endpoint) + "/changes/" + Render(chid) + "/detail"
  }

  /** Against one endpoint, two different change ids never share a URL. */
  lemma QueryUrlInjective(endpoint: string, a: string, b: string)
    requires QueryUrl(Some(endpoint), Some(a)) == QueryUrl(Some(endpoint), Some(b))
    ensures a == b
  {
    var p := endpoint + "/changes/";
    var ua, ub := p + a + "/detail", p + b + "/detail";
    assert QueryUrl(Some(endpoint), Some(a)) == ua;
    assert QueryUrl(Some(endpoint), Some(b)) == ub;
    assert |a| == |b|;
    assert ua[|p|..|p| + |a|] == a;
    assert ub[|p|..|p| + |b|] == b;
  }

  lemma QueryUrlOfFixture()
    ensures QueryUrl(Some("https://hereweare.testing.it"), Some("326205"))
         == "https://hereweare.testing.it/changes/326205/detail"
  {
  }

  /* ----------------------------- label votes ----------------------------- */

  function NonZero(items: seq<int>): seq<int> {
    Filter(items, v => v != 0)
  }

  function MinOf(s: seq<int>): (m: int)
    requires |s| > 0
    ensures m in s
    ensures forall i :: 0 <= i < |s| ==> m <= s[i]
    decreases |s|
  {
    if |s| == 1 then s[0]
    else
      var rest := MinOf(s[1..]);
      if s[0] <= rest then s[0] else rest
  }

  /** `filterLabel` as written: the first non-zero vote is returned, but only
      when no later non-zero vote is smaller; with no non-zero vote it reads
      `reviews[0].value` of nothing, and on a smaller later vote it reads the
      undefined name `item`. Both throw. */
  function LabelValue(items: seq<int>): (r: Result<int>)
    ensures r == Err(NoNonZeroVote) <==> forall i :: 0 <= i < |items| ==> items[i] == 0
    ensures r == Err(UndefinedItem) <==>
      exists j :: 1 <= j < |NonZero(items)| && NonZero(items)[j] < NonZero(items)[0]
    ensures r.Ok? <==>
      |NonZero(items)| > 0 && forall j :: 0 <= j < |NonZero(items)| ==> NonZero(items)[0] <= NonZero(items)[j]
    ensures r.Ok? ==> r.value == NonZero(items)[0] && r.value != 0 && r.value in items
  {
    var reviews := NonZero(items);
    if |reviews| == 0 then Err(NoNonZeroVote)
    else if exists j :: 1 <= j < |reviews| && reviews[j] < reviews[0] then Err(UndefinedItem)
    else Ok(reviews[0])
  }

  /** The loop of `filterLabel`, proved to compute `LabelValue`. */
  method FilterLabel(items: seq<int>) returns (r: Result<int>)
    ensures r == LabelValue(items)
  {
    var reviews := NonZero(items);
    if |reviews| == 0 {
      return Err(NoNonZeroVote);
    }
    var value := reviews[0];
    var index := 1;
    while index < |reviews|
      invariant 1 <= index <= |reviews|
      invariant value == reviews[0]
      invariant forall j :: 1 <= j < index ==> reviews[j] >= value
    {
      if reviews[index] < value {
        return Err(UndefinedItem);
      }
      index := index + 1;
    }
    r := Ok(value);
  }

  /** The label value the function is evidently meant to compute: the least
      non-zero vote, and 0 (the field's initial value) when nobody voted. */
  function LeastVote(items: seq<int>): (v: int)
    ensures (forall i :: 0 <= i < |items| ==> items[i] == 0) ==> v == 0
    ensures (exists i :: 0 <= i < |items| && items[i] != 0) ==>
      && v != 0 && v in items
      && forall i :: 0 <= i < |items| && items[i] != 0 ==> v <= items[i]
  {
    var reviews := NonZero(items);
    if |reviews| == 0 then 0 else MinOf(reviews)
  }

  /** Whenever the shipped function returns, it returns the least non-zero vote. */
  lemma LabelValueIsLeast(items: seq<int>)
    requires LabelValue(items).Ok?
    ensures LabelValue(items).value == LeastVote(items)
  {
    var reviews := NonZero(items);
    var m := MinOf(reviews);
    assert forall j :: 0 <= j < |reviews| ==> reviews[0] <= reviews[j];
    var k :| 0 <= k < |reviews| && reviews[k] == m;
    assert reviews[0] <= m;
  }

  /** Two votes where the later one is lower: the shipped code throws where
      the least vote, -1, was meant. */
  lemma FilterLabelLaterSmallerVote()
    ensures LabelValue([1, -1]) == Err(UndefinedItem)
    ensures LeastVote([1, -1]) == -1
  {
    assert NonZero([1, -1]) == [1, -1] by {
      assert NonZero([-1]) == [-1];
    }
  }

  /** A label whose reviewers have not voted: the shipped code throws where
      0 was meant. */
  lemma FilterLabelNoVote()
    ensures LabelValue([0, 0]) == Err(NoNonZeroVote)
    ensures LeastVote([0, 0]) == 0
  {
  }

  /** The approved and rejected labels of the test fixtures resolve to 1 and -2. */
  lemma FilterLabelOfFixtures()
    ensures LabelValue([0, 1]) == Ok(1)
    ensures LabelValue([-2, 1]) == Ok(-2)
  {
    assert NonZero([0, 1]) == [1] by {
      assert NonZero([1]) == [1];
    }
    assert NonZero([-2, 1]) == [-2, 1] by {
      assert NonZero([1]) == [1];
    }
  }

  /* ------------------------------ conversion ------------------------------ */

  /** One label of `convertGerritData`: 0 when the label has no `all` list,
      otherwise `filterLabel` as written: the first non-zero vote, which is
      then the least, when no later non-zero vote is smaller; a throw when
      one is, or when no vote is non-zero. */
  function LabelVote(votes: RawLabel): (r: Result<int>)
    ensures votes.all.None? ==> r == Ok(0)
    ensures r.Ok? ==> r.value == (if votes.all.None? then 0 else LeastVote(votes.all.value))
    ensures r.Ok? && r.value != 0 ==> votes.all.Some? && r.value in votes.all.value
    ensures r == Err(NoNonZeroVote) <==>
      votes.all.Some? && forall i :: 0 <= i < |votes.all.value| ==> votes.all.value[i] == 0
    ensures r == Err(UndefinedItem) <==>
      && votes.all.Some?
      && exists j :: 1 <= j < |NonZero(votes.all.value)| && NonZero(votes.all.value)[j] < NonZero(votes.all.value)[0]
    ensures r.Ok? <==>
      || votes.all.None?
      || (&& |NonZero(votes.all.value)| > 0
          && forall j :: 0 <= j < |NonZero(votes.all.value)| ==> NonZero(votes.all.value)[0] <= NonZero(votes.all.value)[j])
  {
    if votes.all.None? then Ok(0)
    else
      var r := LabelValue(votes.all.value);
      assert r.Ok? ==> r.value == LeastVote(votes.all.value) by {
        if r.Ok? { LabelValueIsLeast(votes.all.value); }
      }
      r
  }

  /** `convertGerritData`: subject and status copied when present, the id the
      decimal form of `_number`, and the two label values. Reading a label the
      reply does not carry throws. */
  function Convert(raw: RawChange): (r: Result<Change>)
    ensures r.Ok? <==>
      && raw.number.Some? && raw.labels.Some?
      && VerifiedLabel in raw.labels.value && CodeReviewLabel in raw.labels.value
      && LabelVote(raw.labels.value[VerifiedLabel]).Ok?
      && LabelVote(raw.labels.value[CodeReviewLabel]).Ok?
    ensures raw.number.None? ==> r == Err(UndefinedNumber)
    ensures r.Ok? ==>
      && r.value.id == Some(Text.IntToString(raw.number.value))
      && r.value.subject == raw.subject && r.value.status == raw.status
      && r.value.updated.None? && r.value.error.None?
    ensures r.Ok? ==>
      var v := raw.labels.value[VerifiedLabel].all;
      r.value.verified == Some(if v.None? then 0 else LeastVote(v.value))
    ensures r.Ok? ==>
      var c := raw.labels.value[CodeReviewLabel].all;
      r.value.codeReview == Some(if c.None? then 0 else LeastVote(c.value))
  {
    if raw.number.None? then Err(UndefinedNumber)
    else if raw.labels.None? || VerifiedLabel !in raw.labels.value then Err(UndefinedLabel(VerifiedLabel))
    else
      var verified := LabelVote(raw.labels.value[VerifiedLabel]);
      if verified.Err? then Err(verified.fault)
      else if CodeReviewLabel !in raw.labels.value then Err(UndefinedLabel(CodeReviewLabel))
      else
        var codeReview := LabelVote(raw.labels.value[CodeReviewLabel]);
        if codeReview.Err? then Err(codeReview.fault)
        else
          var v := raw.labels.value[VerifiedLabel].all;
          var c := raw.labels.value[CodeReviewLabel].all;
          assert v.Some? ==> verified.value == LeastVote(v.value) by {
            if v.Some? { LabelValueIsLeast(v.value); }
          }
          assert c.Some? ==> codeReview.value == LeastVote(c.value) by {
            if c.Some? { LabelValueIsLeast(c.value); }
          }
          Ok(Change(Some(Text.IntToString(raw.number.value)), raw.subject, raw.status,
                    Some(codeReview.value), Some(verified.value), None, None))
  }

  /** The parsed body: a parse failure throws, and only a parse failure
      gives that fault. A decoded change carries an id and neither flag. */
  function Decode(parsed: Option<RawChange>): (r: Result<Change>)
    ensures r == Err(Unparsable) <==> parsed.None?
    ensures r.Ok? ==> r.value.id.Some? && r.value.error.None? && r.value.updated.None?
  {
    if parsed.None? then Err(Unparsable) else Convert(parsed.value)
  }

  /** `query`: a request that is rejected yields `{id, error: true}` (and
      throws itself when there is no id to print); a status other than 200,
      or an empty body, yields `{}`; otherwise the first `)]}'` is removed
      from the body, which is parsed and converted. */
  function Query(o: Options, chid: Option<string>, remote: Remote): (r: Result<Change>)
    ensures var resp := remote.reply(QueryUrl(o.endpoint, chid));
      && (r.Ok? && r.value.error == Some(true) <==> resp.Thrown? && chid.Some?)
      && (resp.Thrown? && chid.Some? ==> r == Ok(ErrorEntry(chid.value)))
      && (resp.Thrown? && chid.None? ==> r == Err(UndefinedId))
      && (resp.Reply? && resp.status != 200 ==> r == Ok(Blank))
      && (resp.Reply? && resp.status == 200 && resp.body == [] ==> r == Ok(Blank))
      && (resp.Reply? && resp.status == 200 && resp.body != [] ==>
            r == Decode(remote.parse(Text.ReplaceFirst(resp.body, XssiPrefix, ""))))
  {
    match remote.reply(QueryUrl(o.endpoint, chid))
    case Thrown =>
      if chid.Some? then Ok(ErrorEntry(chid.value)) else Err(UndefinedId)
    case Reply(status, body) =>
      if status != 200 || body == [] then Ok(Blank)
      else Decode(remote.parse(Text.ReplaceFirst(body, XssiPrefix, "")))
  }

  /** A body that starts with `)]}'` is parsed from just after the prefix. */
  lemma QueryStripsPrefix(o: Options, chid: Option<string>, remote: Remote)
    requires remote.reply(QueryUrl(o.endpoint, chid)).Reply?
    requires remote.reply(QueryUrl(o.endpoint, chid)).status == 200
    requires XssiPrefix <= remote.reply(QueryUrl(o.endpoint, chid)).body
    ensures var body := remote.reply(QueryUrl(o.endpoint, chid)).body;
      Query(o, chid, remote) == Decode(remote.parse(body[|XssiPrefix|..]))
  {
    var body := remote.reply(QueryUrl(o.endpoint, chid)).body;
    assert "" + body[|XssiPrefix|..] == body[|XssiPrefix|..];
  }

  /** A body without the prefix anywhere, such as plain JSON, is parsed whole. */
  lemma QueryUnprefixedBody(o: Options, chid: Option<string>, remote: Remote)
    requires remote.reply(QueryUrl(o.endpoint, chid)).Reply?
    requires remote.reply(QueryUrl(o.endpoint, chid)).status == 200
    requires remote.reply(QueryUrl(o.endpoint, chid)).body != []
    requires var body := remote.reply(QueryUrl(o.endpoint, chid)).body;
      forall j :: 0 <= j <= |body| ==> !Text.OccursAt(body, XssiPrefix, j)
    ensures Query(o, chid, remote) == Decode(remote.parse(remote.reply(QueryUrl(o.endpoint, chid)).body))
  {
    Text.ReplaceFirstAbsent(remote.reply(QueryUrl(o.endpoint, chid)).body, XssiPrefix, "");
  }
}
