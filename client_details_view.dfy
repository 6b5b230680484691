/** The display helpers of the per-client detail screen: the code-to-label
    tables of training items, the remaining-credit figure, the item-title
    fallback chain, the avatar letter, the short conversation id and the two
    fixed-order chart series. */
module ClientDetailsView {
  import opened Common

  // ---------------------------------------------------------------------
  // Code-to-label tables
  // ---------------------------------------------------------------------

  const TrainingTypes: map<int, string> :=
    map[0 := "Web Page", 1 := "File", 2 := "Snippet", 3 := "FAQ"]

  const TrainingStatuses: map<int, string> :=
    map[1 := "Listed", 2 := "Crawled", 3 := "Minified", 4 := "Mapped"]

  const StatusVariants: map<int, string> :=
    map[1 := "secondary", 2 := "default", 3 := "outline", 4 := "default"]

  /** `table[code] || fallback`: every entry of the three tables is a
      non-empty (truthy) string, so a listed code yields its entry and
      anything else, a missing field included, the fallback. */
  function Lookup(table: map<int, string>, code: Option<int>, fallback: string): string {
    if code.Some? && code.value in table && table[code.value] != "" then table[code.value] else fallback
  }

  /** `getTrainingTypeLabel`: a label exactly for the codes 0 to 3. */
  function TrainingTypeLabel(code: Option<int>): (r: string)
    ensures r != "Unknown" <==> code.Some? && 0 <= code.value <= 3
    ensures r in {"Web Page", "File", "Snippet", "FAQ", "Unknown"}
  {
    Lookup(TrainingTypes, code, "Unknown")
  }

  /** `getTrainingStatusLabel`: a label exactly for the codes 1 to 4. */
  function TrainingStatusLabel(code: Option<int>): (r: string)
    ensures r != "Unknown" <==> code.Some? && 1 <= code.value <= 4
    ensures r in {"Listed", "Crawled", "Minified", "Mapped", "Unknown"}
  {
    Lookup(TrainingStatuses, code, "Unknown")
  }

  /** `getStatusVariant`: always one of three badge styles; "outline" only
      for status 3, "default" only for statuses 2 and 4. */
  function StatusVariant(code: Option<int>): (r: string)
    ensures r in {"secondary", "default", "outline"}
    ensures r == "outline" <==> code == Some(3)
    ensures r == "default" <==> code == Some(2) || code == Some(4)
  {
    Lookup(StatusVariants, code, "secondary")
  }

  /** The type labels name the codes one to one. */
  lemma TrainingTypeLabelInjective(a: Option<int>, b: Option<int>)
    requires TrainingTypeLabel(a) == TrainingTypeLabel(b) != "Unknown"
    ensures a == b
  {
  }

  /** The status labels name the codes one to one. */
  lemma TrainingStatusLabelInjective(a: Option<int>, b: Option<int>)
    requires TrainingStatusLabel(a) == TrainingStatusLabel(b) != "Unknown"
    ensures a == b
  {
  }

  /** A status without a label gets the "secondary" badge. */
  lemma UnknownStatusIsSecondary(code: Option<int>)
    ensures TrainingStatusLabel(code) == "Unknown" ==> StatusVariant(code) == "secondary"
  {
  }

  lemma LabelTables()
    ensures TrainingTypeLabel(Some(0)) == "Web Page" && TrainingTypeLabel(Some(1)) == "File"
    ensures TrainingTypeLabel(Some(2)) == "Snippet" && TrainingTypeLabel(Some(3)) == "FAQ"
    ensures TrainingStatusLabel(Some(1)) == "Listed" && TrainingStatusLabel(Some(2)) == "Crawled"
    ensures TrainingStatusLabel(Some(3)) == "Minified" && TrainingStatusLabel(Some(4)) == "Mapped"
    ensures StatusVariant(Some(1)) == "secondary" && StatusVariant(Some(2)) == "default"
    ensures StatusVariant(Some(3)) == "outline" && StatusVariant(Some(4)) == "default"
  {
  }

  // ---------------------------------------------------------------------
  // Credits
  // ---------------------------------------------------------------------

  /** `(credits?.total || 0) - (credits?.used || 0)`: what is left after the
      used credits; negative exactly when more was used than granted. */
  function RemainingCredits(total: Option<int>, used: Option<int>): (r: int)
    ensures r + OrZero(used) == OrZero(total)
    ensures r < 0 <==> OrZero(used) > OrZero(total)
    ensures total.None? && used.None? ==> r == 0
  {
    OrZero(total) - OrZero(used)
  }

  // ---------------------------------------------------------------------
  // Training item title
  // ---------------------------------------------------------------------

  /** A training item as listed under "Training Content"; the nested
      `webPage?.title`, `file?.fileName`, `snippet?.title` and
      `faq?.question` are each one optional string. */
  datatype TrainingItem = TrainingItem(
    title: Option<string>,
    webPageTitle: Option<string>,
    fileName: Option<string>,
    snippetTitle: Option<string>,
    faqQuestion: Option<string>,
    itemType: Option<int>,
    trainingStatus: Option<int>)

  /** Candidate i is the first truthy one. */
  predicate FirstTruthyAt(cands: seq<Option<string>>, i: int) {
    0 <= i < |cands| && Truthy(cands[i]) && forall j :: 0 <= j < i ==> !Truthy(cands[j])
  }

  /** `a || b || ... || fallback` over optional strings. */
  function FirstTruthy(cands: seq<Option<string>>, fallback: string): (r: string)
    ensures if exists i :: 0 <= i < |cands| && Truthy(cands[i])
      then exists i :: FirstTruthyAt(cands, i) && r == cands[i].value
      else r == fallback
  {
    if cands == [] then fallback
    else if Truthy(cands[0]) then
      assert FirstTruthyAt(cands, 0);
      cands[0].value
    else
      var r := FirstTruthy(cands[1..], fallback);
      FirstTruthySkip(cands, fallback, r);
      r
  }

  /** One falsy candidate in front changes nothing. */
  lemma FirstTruthySkip(cands: seq<Option<string>>, fallback: string, r: string)
    requires cands != [] && !Truthy(cands[0])
    requires if exists i :: 0 <= i < |cands[1..]| && Truthy(cands[1..][i])
      then exists i :: FirstTruthyAt(cands[1..], i) && r == cands[1..][i].value
      else r == fallback
    ensures if exists i :: 0 <= i < |cands| && Truthy(cands[i])
      then exists i :: FirstTruthyAt(cands, i) && r == cands[i].value
      else r == fallback
  {
    var tail := cands[1..];
    if exists i :: 0 <= i < |cands| && Truthy(cands[i]) {
      var i :| 0 <= i < |cands| && Truthy(cands[i]);
      assert i > 0 && tail[i - 1] == cands[i];
      var k :| FirstTruthyAt(tail, k) && r == tail[k].value;
      assert forall j :: 0 < j <= k ==> cands[j] == tail[j - 1];
      assert FirstTruthyAt(cands, k + 1);
    } else {
      assert forall i :: 0 <= i < |tail| ==> tail[i] == cands[i + 1];
    }
  }

  function TitleCandidates(item: TrainingItem): seq<Option<string>> {
    [item.title, item.webPageTitle, item.fileName, item.snippetTitle, item.faqQuestion]
  }

  /** The heading of an item: the first non-empty of its title, the web
      page's title, the file name, the snippet's title and the FAQ's
      question, else "Untitled"; never empty. */
  function ItemTitle(item: TrainingItem): (r: string)
    ensures r != ""
    ensures (forall i :: 0 <= i < 5 ==> !Truthy(TitleCandidates(item)[i])) ==> r == "Untitled"
    ensures Truthy(item.title) ==> r == item.title.value
  {
    var r := FirstTruthy(TitleCandidates(item), "Untitled");
    FirstTruthyNonEmpty(TitleCandidates(item), "Untitled", r);
    r
  }

  /** A truthy pick is non-empty, and a truthy head is the pick. */
  lemma FirstTruthyNonEmpty(cands: seq<Option<string>>, fallback: string, r: string)
    requires fallback != ""
    requires if exists i :: 0 <= i < |cands| && Truthy(cands[i])
      then exists i :: FirstTruthyAt(cands, i) && r == cands[i].value
      else r == fallback
    ensures r != ""
    ensures cands != [] && Truthy(cands[0]) ==> r == cands[0].value
  {
    if exists i :: 0 <= i < |cands| && Truthy(cands[i]) {
      var i :| FirstTruthyAt(cands, i) && r == cands[i].value;
      if cands != [] && Truthy(cands[0]) {
        assert i == 0;
      }
    }
  }

  /** The two badges above an item's heading. */
  datatype Badges = Badges(status: string, variant: string, kind: string)

  /** The status badge (label in its style) and the type badge of an item:
      an unlabelled status is drawn as "secondary", "outline" is the
      "Minified" status, and the type badge is "Unknown" exactly when the type
      is missing or outside 0 to 3. */
  function ItemBadges(item: TrainingItem): (r: Badges)
    ensures r.status == "Unknown" ==> r.variant == "secondary"
    ensures r.variant == "outline" <==> r.status == "Minified"
    ensures r.variant == "default" <==> r.status == "Crawled" || r.status == "Mapped"
    ensures r.kind == "Unknown" <==> !(item.itemType.Some? && 0 <= item.itemType.value <= 3)
  {
    Badges(TrainingStatusLabel(item.trainingStatus), StatusVariant(item.trainingStatus),
      TrainingTypeLabel(item.itemType))
  }

  // ---------------------------------------------------------------------
  // Avatar letter and conversation id
  // ---------------------------------------------------------------------

  /** `email?.charAt(0)?.toUpperCase() || 'U'`: one character, never an
      ASCII lower-case letter; the upper-cased first character of a
      non-empty address, else "U". */
  function AvatarInitial(email: Option<string>): (r: string)
    ensures |r| == 1 && !('a' <= r[0] <= 'z')
    ensures Truthy(email) ==> r[0] == UpperChar(email.value[0])
    ensures !Truthy(email) ==> r == "U"
  {
    if Truthy(email) then [UpperChar(email.value[0])] else "U"
  }

  /** `_id.slice(-6)`: the last six characters, or the whole id when it is
      shorter. */
  function IdSuffix(id: string): (r: string)
    ensures |r| == if |id| < 6 then |id| else 6
    ensures id == id[..|id| - |r|] + r
  {
    var start := if |id| >= 6 then |id| - 6 else 0;
    assert id == id[..start] + id[start..];
    id[start..]
  }

  /** Shortening twice is shortening once. */
  lemma IdSuffixIdempotent(id: string)
    ensures IdSuffix(IdSuffix(id)) == IdSuffix(id)
  {
  }

  // ---------------------------------------------------------------------
  // Chart series
  // ---------------------------------------------------------------------

  datatype MessageCounts = MessageCounts(bot: Option<int>, agent: Option<int>, visitor: Option<int>, assistant: Option<int>)
  datatype PieSlice = PieSlice(name: string, value: int, color: string)

  datatype ContentStats = ContentStats(webPage: Option<int>, file: Option<int>, snippet: Option<int>, faq: Option<int>)
  datatype Bar = Bar(name: string, count: int)

  const MessageSeriesNames: seq<string> := ["Bot", "Agent", "Visitor", "Assistant"]
  const TrainingSeriesNames: seq<string> := ["Web Pages", "Files", "Snippets", "FAQs"]

  /** The four counts of a message breakdown, in series order. */
  function MessageValues(m: MessageCounts): seq<int> {
    [OrZero(m.bot), OrZero(m.agent), OrZero(m.visitor), OrZero(m.assistant)]
  }

  /** `messageChartData`: four slices in the fixed order Bot, Agent,
      Visitor, Assistant; a missing breakdown or count reads as 0. */
  function MessageChartData(messages: Option<MessageCounts>): (r: seq<PieSlice>)
    ensures |r| == 4
    ensures forall i :: 0 <= i < 4 ==> r[i].name == MessageSeriesNames[i]
    ensures messages.None? ==> forall i :: 0 <= i < 4 ==> r[i].value == 0
    ensures messages.Some? ==> forall i :: 0 <= i < 4 ==> r[i].value == MessageValues(messages.value)[i]
  {
    var m := messages.GetOr(MessageCounts(None, None, None, None));
    [ PieSlice("Bot", OrZero(m.bot), "#8B5CF6"),
      PieSlice("Agent", OrZero(m.agent), "#06B6D4"),
      PieSlice("Visitor", OrZero(m.visitor), "#10B981"),
      PieSlice("Assistant", OrZero(m.assistant), "#F59E0B") ]
  }

  /** The four counts of the training-content statistics, in series order. */
  function StatValues(s: ContentStats): seq<int> {
    [OrZero(s.webPage), OrZero(s.file), OrZero(s.snippet), OrZero(s.faq)]
  }

  /** `trainingStatsData`: four bars in the fixed order Web Pages, Files,
      Snippets, FAQs; missing statistics or counts read as 0. */
  function TrainingStatsData(stats: Option<ContentStats>): (r: seq<Bar>)
    ensures |r| == 4
    ensures forall i :: 0 <= i < 4 ==> r[i].name == TrainingSeriesNames[i]
    ensures stats.None? ==> forall i :: 0 <= i < 4 ==> r[i].count == 0
    ensures stats.Some? ==> forall i :: 0 <= i < 4 ==> r[i].count == StatValues(stats.value)[i]
  {
    var s := stats.GetOr(ContentStats(None, None, None, None));
    [ Bar("Web Pages", OrZero(s.webPage)),
      Bar("Files", OrZero(s.file)),
      Bar("Snippets", OrZero(s.snippet)),
      Bar("FAQs", OrZero(s.faq)) ]
  }
}
