/** The client directory table: a search filter over three optional text
    fields, a key-selected sort whose comparator never answers "equal", a
    page slice, the "Showing X to Y of N" line and the compact page-number
    bar, together with the query state that the header, the search box, the
    page-size select and the Previous/Next buttons update. */
module ClientListView {
  import opened Common

  // ---------------------------------------------------------------------
  // Records
  // ---------------------------------------------------------------------

  datatype User = User(name: Option<string>, email: Option<string>)
  datatype Metrics = Metrics(totalConversations: Option<int>, agentCount: Option<int>)
  datatype Credits = Credits(total: Option<int>, used: Option<int>)

  /** One row of the directory as the list endpoint returns it; `createdAt`
      is the instant the record's date string denotes. */
  datatype Client = Client(
    id: string,
    userId: Option<User>,
    pineconeIndexName: Option<string>,
    metrics: Option<Metrics>,
    credits: Option<Credits>,
    createdAt: int)

  /** `client.userId?.name` */
  function UserName(c: Client): Option<string> {
    if c.userId.Some? then c.userId.value.name else None
  }

  /** `client.userId?.email` */
  function UserEmail(c: Client): Option<string> {
    if c.userId.Some? then c.userId.value.email else None
  }

  // ---------------------------------------------------------------------
  // Search
  // ---------------------------------------------------------------------

  /** `field?.toLowerCase().includes(term.toLowerCase())`: an absent field
      never matches. */
  function FieldMatches(field: Option<string>, term: string): (r: bool)
    ensures r <==> field.Some? && exists i :: OccursAt(Lower(term), Lower(field.value), i)
    ensures field == Some(term) ==> r
  {
    field.Some? && (assert field == Some(term) ==> OccursAt(Lower(term), Lower(field.value), 0);
                    Includes(Lower(field.value), Lower(term)))
  }

  /** The filter's test: the term occurs, case aside, in the user's name, the
      user's e-mail or the index name. A client with none of the three is
      never kept; one whose field equals the term always is. */
  function Matches(c: Client, term: string): (r: bool)
    ensures r ==> HasSearchField(c)
    ensures UserName(c) == Some(term) || UserEmail(c) == Some(term) || c.pineconeIndexName == Some(term) ==> r
  {
    || FieldMatches(UserName(c), term)
    || FieldMatches(UserEmail(c), term)
    || FieldMatches(c.pineconeIndexName, term)
  }

  predicate HasSearchField(c: Client) {
    UserName(c).Some? || UserEmail(c).Some? || c.pineconeIndexName.Some?
  }

  /** `clients.filter(...)`: keeps, in their original order, exactly the
      occurrences of the clients that match the term. */
  function FilterClients(cs: seq<Client>, term: string): (r: seq<Client>)
    ensures IsSubsequence(r, cs)
    ensures forall c :: multiset(r)[c] == if Matches(c, term) then multiset(cs)[c] else 0
  {
    if cs == [] then []
    else
      var rest := FilterClients(cs[1..], term);
      assert cs == [cs[0]] + cs[1..];
      if Matches(cs[0], term) then
        assert ([cs[0]] + rest)[1..] == rest;
        [cs[0]] + rest
      else
        assert rest != [] ==> rest[0] in multiset(rest);
        rest
  }

  /** Membership form of the filter's contract. */
  lemma FilterKeepsExactlyMatches(cs: seq<Client>, term: string, c: Client)
    ensures c in FilterClients(cs, term) <==> c in cs && Matches(c, term)
  {
    var r := FilterClients(cs, term);
    assert c in r <==> multiset(r)[c] > 0;
    assert c in cs <==> multiset(cs)[c] > 0;
  }

  /** An empty term keeps exactly the clients with at least one of the three
      fields present: the empty string occurs in every string. */
  lemma MatchesEmptyTerm(c: Client)
    ensures Matches(c, "") <==> HasSearchField(c)
  {
    assert Lower("") == "";
    forall s: string ensures Includes(s, "") {
      assert OccursAt("", s, 0);
    }
  }

  /** With the empty term the filter is the identity exactly when every
      client has a searchable field; a client with all three absent is
      dropped. */
  lemma {:induction false} FilterEmptyTerm(cs: seq<Client>)
    ensures FilterClients(cs, "") == cs <==> forall i :: 0 <= i < |cs| ==> HasSearchField(cs[i])
  {
    if cs != [] {
      MatchesEmptyTerm(cs[0]);
      FilterEmptyTerm(cs[1..]);
      var r := FilterClients(cs, "");
      if r == cs {
        forall i | 0 <= i < |cs| ensures HasSearchField(cs[i]) {
          FilterKeepsExactlyMatches(cs, "", cs[i]);
          MatchesEmptyTerm(cs[i]);
        }
      }
      if forall i :: 0 <= i < |cs| ==> HasSearchField(cs[i]) {
        assert forall i :: 0 <= i < |cs[1..]| ==> HasSearchField(cs[1..][i]) by {
          forall i | 0 <= i < |cs[1..]| ensures HasSearchField(cs[1..][i]) {
            assert cs[1..][i] == cs[i + 1];
          }
        }
        assert HasSearchField(cs[0]);
        assert Matches(cs[0], "");
        assert cs == [cs[0]] + cs[1..];
      }
    }
  }

  /** A client known only by its e-mail address. */
  function EmailOnly(id: string, email: string): Client {
    Client(id, Some(User(None, Some(email))), None, None, None, 0)
  }

  lemma EmailOnlyMatches(id: string, email: string, term: string)
    ensures Matches(EmailOnly(id, email), term) <==> Includes(Lower(email), Lower(term))
  {
  }

  lemma ExampleMatches()
    ensures !Matches(EmailOnly("1", "a@x.com"), "y.com")
    ensures Matches(EmailOnly("2", "B@Y.com"), "y.com")
    ensures !Matches(EmailOnly("3", "c@z.com"), "y.com")
  {
    assert Lower("y.com") == "y.com";
    assert Lower("a@x.com") == "a@x.com";
    assert Lower("B@Y.com") == "b@y.com";
    assert Lower("c@z.com") == "c@z.com";
    assert OccursAt("y.com", "b@y.com", 2);
    assert !Includes("a@x.com", "y.com") by {
      forall i | 0 <= i <= 2 ensures !OccursAt("y.com", "a@x.com", i) {
        assert "a@x.com"[i..i + 5][0] == "a@x.com"[i] != 'y';
      }
    }
    assert !Includes("c@z.com", "y.com") by {
      forall i | 0 <= i <= 2 ensures !OccursAt("y.com", "c@z.com", i) {
        assert "c@z.com"[i..i + 5][0] == "c@z.com"[i] != 'y';
      }
    }
    EmailOnlyMatches("1", "a@x.com", "y.com");
    EmailOnlyMatches("2", "B@Y.com", "y.com");
    EmailOnlyMatches("3", "c@z.com", "y.com");
  }

  /** Three clients known only by e-mail; the term "y.com" keeps the
      second one, whose address differs from the term in case. */
  lemma SearchIsCaseInsensitive()
    ensures FilterClients([EmailOnly("1", "a@x.com"), EmailOnly("2", "B@Y.com"), EmailOnly("3", "c@z.com")], "y.com")
      == [EmailOnly("2", "B@Y.com")]
  {
    var a, b, c := EmailOnly("1", "a@x.com"), EmailOnly("2", "B@Y.com"), EmailOnly("3", "c@z.com");
    ExampleMatches();
    assert [a, b, c] == [a] + [b, c] && [b, c] == [b] + [c] && [c] == [c] + [];
    FilterStep(c, [], "y.com");
    assert FilterClients([c], "y.com") == [];
    FilterStep(b, [c], "y.com");
    assert FilterClients([b, c], "y.com") == [b];
    FilterStep(a, [b, c], "y.com");
  }

  lemma FilterStep(c: Client, cs: seq<Client>, term: string)
    ensures FilterClients([c] + cs, term) ==
      if Matches(c, term) then [c] + FilterClients(cs, term) else FilterClients(cs, term)
  {
    assert ([c] + cs)[1..] == cs;
  }

  // ---------------------------------------------------------------------
  // Sort
  // ---------------------------------------------------------------------

  /** `sortOrder`: only 'asc' and 'desc' are ever assigned. */
  datatype Order = Asc | Desc

  /** The value a comparator reads: a string for name/email, a number for
      the counters and for `createdAt`. */
  datatype Key = Text(s: string) | Num(n: int)

  /** The `switch (sortBy)`: missing strings become '', missing counters 0,
      and every other key falls back to `createdAt`. */
  function SortKey(c: Client, sortBy: string): (k: Key)
    ensures k.Text? <==> sortBy == "name" || sortBy == "email"
  {
    if sortBy == "name" then Text(UserName(c).GetOr(""))
    else if sortBy == "email" then Text(UserEmail(c).GetOr(""))
    else if sortBy == "conversations" then
      Num(if c.metrics.Some? then OrZero(c.metrics.value.totalConversations) else 0)
    else if sortBy == "agents" then
      Num(if c.metrics.Some? then OrZero(c.metrics.value.agentCount) else 0)
    else if sortBy == "credits" then
      Num(if c.credits.Some? then OrZero(c.credits.value.total) else 0)
    else Num(c.createdAt)
  }

  /** The defaults of the `switch`: a missing name or e-mail reads as '',
      missing metrics, counters or credits as 0, and every key other than
      the five column names as the creation time. */
  lemma SortKeyDefaults(c: Client, sortBy: string)
    ensures sortBy == "name" && UserName(c).None? ==> SortKey(c, sortBy) == Text("")
    ensures sortBy == "email" && UserEmail(c).None? ==> SortKey(c, sortBy) == Text("")
    ensures sortBy in {"conversations", "agents"} && c.metrics.None? ==> SortKey(c, sortBy) == Num(0)
    ensures sortBy == "conversations" && c.metrics.Some? && c.metrics.value.totalConversations.None? ==>
      SortKey(c, sortBy) == Num(0)
    ensures sortBy == "agents" && c.metrics.Some? && c.metrics.value.agentCount.None? ==>
      SortKey(c, sortBy) == Num(0)
    ensures sortBy == "credits" && (c.credits.None? || c.credits.value.total.None?) ==> SortKey(c, sortBy) == Num(0)
    ensures sortBy !in {"name", "email", "conversations", "agents", "credits"} ==> SortKey(c, sortBy) == Num(c.createdAt)
  {
  }

  /** The first k characters agree, and then either a ends while b goes on,
      or a's next character is the smaller one. */
  predicate DiffersFirstAt(a: string, b: string, k: int) {
    && 0 <= k <= |a| && k <= |b| && a[..k] == b[..k]
    && ((k == |a| && k < |b|) || (k < |a| && k < |b| && a[k] < b[k]))
  }

  /** JavaScript's `<` on strings: lexicographic, a proper prefix first. */
  function LexLess(a: string, b: string): (r: bool)
    ensures r <==> exists k :: DiffersFirstAt(a, b, k)
    decreases |a|
  {
    if a == [] then
      assert b != [] ==> DiffersFirstAt(a, b, 0);
      b != []
    else if b == [] then
      false
    else if a[0] != b[0] then
      assert a[0] < b[0] ==> DiffersFirstAt(a, b, 0);
      assert forall k :: DiffersFirstAt(a, b, k) ==> k == 0;
      a[0] < b[0]
    else
      LexLessStep(a, b);
      LexLess(a[1..], b[1..])
  }

  /** With equal first characters, the strings first differ one position
      after their tails do. */
  lemma LexLessStep(a: string, b: string)
    requires a != [] && b != [] && a[0] == b[0]
    ensures (exists k :: DiffersFirstAt(a, b, k)) <==> exists k :: DiffersFirstAt(a[1..], b[1..], k)
  {
    if exists k :: DiffersFirstAt(a, b, k) {
      var k :| DiffersFirstAt(a, b, k);
      assert a[1..][..k - 1] == a[..k][1..] && b[1..][..k - 1] == b[..k][1..];
      assert DiffersFirstAt(a[1..], b[1..], k - 1);
    }
    if exists k :: DiffersFirstAt(a[1..], b[1..], k) {
      var k :| DiffersFirstAt(a[1..], b[1..], k);
      assert a[..k + 1] == [a[0]] + a[1..][..k] && b[..k + 1] == [b[0]] + b[1..][..k];
      assert DiffersFirstAt(a, b, k + 1);
    }
  }

  lemma {:induction false} LexTrichotomy(a: string, b: string)
    ensures LexLess(a, b) || a == b || LexLess(b, a)
    ensures !(LexLess(a, b) && LexLess(b, a))
    ensures LexLess(a, b) ==> a != b
    decreases |a|
  {
    if a != [] && b != [] && a[0] == b[0] {
      LexTrichotomy(a[1..], b[1..]);
      if a[1..] == b[1..] {
        assert a == [a[0]] + a[1..] && b == [b[0]] + b[1..];
      }
    }
  }

  lemma {:induction false} LexTransitive(a: string, b: string, c: string)
    requires LexLess(a, b) && LexLess(b, c)
    ensures LexLess(a, c)
    decreases |a|
  {
    if a != [] && b != [] && c != [] && a[0] == b[0] && b[0] == c[0] {
      LexTransitive(a[1..], b[1..], c[1..]);
    }
  }

  /** `x < y` on keys. Numbers and strings are never compared with each
      other (one `sortBy` selects keys of one kind); they are ordered
      numbers-first only to make the order total. */
  predicate KeyLess(x: Key, y: Key) {
    match (x, y)
    case (Num(m), Num(n)) => m < n
    case (Text(s), Text(t)) => LexLess(s, t)
    case (Num(_), Text(_)) => true
    case (Text(_), Num(_)) => false
  }

  lemma KeyTrichotomy(x: Key, y: Key)
    ensures KeyLess(x, y) || x == y || KeyLess(y, x)
    ensures !(KeyLess(x, y) && KeyLess(y, x))
    ensures KeyLess(x, y) ==> x != y
  {
    if x.Text? && y.Text? {
      LexTrichotomy(x.s, y.s);
    }
  }

  /** "Not greater than" is transitive. */
  lemma KeyNotLessTransitive(x: Key, y: Key, z: Key)
    requires !KeyLess(y, x) && !KeyLess(z, y)
    ensures !KeyLess(z, x)
  {
    KeyTrichotomy(x, y);
    KeyTrichotomy(y, z);
    if KeyLess(z, x) {
      if x.Text? && y.Text? && z.Text? {
        if x != y { LexTransitive(z.s, x.s, y.s); }
      }
      KeyTrichotomy(z, y);
    }
  }

  /** The comparator handed to `sort`, exactly as written: in ascending
      order 1 when a's key is greater and -1 otherwise, in descending order
      1 when a's key is smaller and -1 otherwise. It never returns 0. */
  function Compare(a: Client, b: Client, sortBy: string, order: Order): (r: int)
    ensures r == 1 || r == -1
  {
    var ka, kb := SortKey(a, sortBy), SortKey(b, sortBy);
    if order == Asc then (if KeyLess(kb, ka) then 1 else -1)
    else (if KeyLess(ka, kb) then 1 else -1)
  }

  /** The comparator answers -1 exactly when the keys are in the selected
      direction: a's key not above b's when ascending, not below when
      descending. */
  lemma CompareMeansKeyOrder(a: Client, b: Client, sortBy: string, order: Order)
    ensures Compare(a, b, sortBy, order) == -1 <==>
      if order == Asc then !KeyLess(SortKey(b, sortBy), SortKey(a, sortBy))
      else !KeyLess(SortKey(a, sortBy), SortKey(b, sortBy))
  {
  }

  /** A client compared with itself is answered -1 ("put before"), never 0;
      so are two different clients whose keys are equal, in both orders. */
  lemma CompareEqualKeys(a: Client, b: Client, sortBy: string, order: Order)
    requires SortKey(a, sortBy) == SortKey(b, sortBy)
    ensures Compare(a, b, sortBy, order) == -1 && Compare(b, a, sortBy, order) == -1
    ensures Compare(a, a, sortBy, order) == -1
  {
    KeyTrichotomy(SortKey(a, sortBy), SortKey(b, sortBy));
  }

  /** If the comparator puts b after a, it puts a before b. */
  lemma CompareFlip(a: Client, b: Client, sortBy: string, order: Order)
    requires Compare(a, b, sortBy, order) == 1
    ensures Compare(b, a, sortBy, order) == -1
  {
    KeyTrichotomy(SortKey(a, sortBy), SortKey(b, sortBy));
  }

  lemma CompareTransitive(a: Client, b: Client, c: Client, sortBy: string, order: Order)
    requires Compare(a, b, sortBy, order) == -1 && Compare(b, c, sortBy, order) == -1
    ensures Compare(a, c, sortBy, order) == -1
  {
    var ka, kb, kc := SortKey(a, sortBy), SortKey(b, sortBy), SortKey(c, sortBy);
    if order == Asc {
      KeyNotLessTransitive(ka, kb, kc);
    } else {
      KeyNotLessTransitive(kc, kb, ka);
    }
  }

  /** Every earlier element is placed, by the comparator, before every later
      one. */
  predicate SortedBy(s: seq<Client>, sortBy: string, order: Order) {
    forall i, j :: 0 <= i < j < |s| ==> Compare(s[i], s[j], sortBy, order) == -1
  }

  /** On the numeric keys a sorted list is non-decreasing when ascending and
      non-increasing when descending. */
  lemma SortedNumericKeys(s: seq<Client>, sortBy: string, order: Order, i: int, j: int)
    requires SortedBy(s, sortBy, order)
    requires sortBy != "name" && sortBy != "email"
    requires 0 <= i < j < |s|
    ensures order == Asc ==> SortKey(s[i], sortBy).n <= SortKey(s[j], sortBy).n
    ensures order == Desc ==> SortKey(s[i], sortBy).n >= SortKey(s[j], sortBy).n
  {
    assert Compare(s[i], s[j], sortBy, order) == -1;
  }

  /** Places x in front of the first element the comparator does not put
      before it. */
  function Insert(x: Client, s: seq<Client>, sortBy: string, order: Order): (r: seq<Client>)
    requires SortedBy(s, sortBy, order)
    ensures multiset(r) == multiset(s) + multiset{x}
    ensures SortedBy(r, sortBy, order)
    decreases |s|
  {
    if s == [] then [x]
    else if Compare(x, s[0], sortBy, order) == -1 then
      assert forall j :: 0 <= j < |s| ==> Compare(x, s[j], sortBy, order) == -1 by {
        forall j | 0 < j < |s| ensures Compare(x, s[j], sortBy, order) == -1 {
          CompareTransitive(x, s[0], s[j], sortBy, order);
        }
      }
      assert forall j :: 0 < j < |[x] + s| ==> ([x] + s)[j] == s[j - 1];
      [x] + s
    else
      assert s == [s[0]] + s[1..];
      var rest := Insert(x, s[1..], sortBy, order);
      CompareFlip(x, s[0], sortBy, order);
      assert forall y :: y in rest ==> Compare(s[0], y, sortBy, order) == -1 by {
        forall y | y in rest ensures Compare(s[0], y, sortBy, order) == -1 {
          assert y in multiset(rest);
          if y != x {
            assert y in multiset(s[1..]);
            var k :| 0 <= k < |s[1..]| && s[1..][k] == y;
            assert s[k + 1] == y;
          }
        }
      }
      var r := [s[0]] + rest;
      assert forall j :: 0 < j < |r| ==> r[j] == rest[j - 1] && r[j] in rest;
      r
  }

  /** `[...filteredClients].sort(comparator)`: a permutation of the input
      that the comparator orders. Among clients with equal keys the order is
      this insertion's, which the comparator leaves unspecified. */
  method SortClients(filtered: seq<Client>, sortBy: string, order: Order) returns (sorted: seq<Client>)
    ensures multiset(sorted) == multiset(filtered)
    ensures SortedBy(sorted, sortBy, order)
  {
    sorted := [];
    var i := 0;
    while i < |filtered|
      invariant 0 <= i <= |filtered|
      invariant multiset(sorted) == multiset(filtered[..i])
      invariant SortedBy(sorted, sortBy, order)
    {
      assert filtered[..i + 1] == filtered[..i] + [filtered[i]];
      sorted := Insert(filtered[i], sorted, sortBy, order);
      i := i + 1;
    }
    assert filtered[..i] == filtered;
  }

  // ---------------------------------------------------------------------
  // Pagination
  // ---------------------------------------------------------------------

  /** The choices of the page-size select. */
  const PageSizeOptions: seq<int> := [5, 10, 25, 50]

  function Min(a: int, b: int): int {
    if a <= b then a else b
  }

  /** `Math.ceil(n / itemsPerPage)`: the least t with n <= t * p, so 0 for
      an empty list. */
  function TotalPages(n: nat, p: int): (t: nat)
    requires p >= 1
    ensures n <= t * p
    ensures (t - 1) * p < n || t == 0
    ensures t == 0 <==> n == 0
  {
    var q := (n + p - 1) / p;
    var m := (n + p - 1) % p;
    assert n + p - 1 == q * p + m && 0 <= m < p;
    assert (q - 1) * p == q * p - p;
    q
  }

  /** `startIndex = (currentPage - 1) * itemsPerPage` */
  function PageStart(page: int, p: int): (start: int)
    ensures page >= 1 && p >= 0 ==> start >= 0
    ensures start + p == page * p
  {
    (page - 1) * p
  }

  /** `sorted.slice(startIndex, startIndex + itemsPerPage)`; `slice` clamps
      both bounds to the length. */
  function PageSlice<T>(s: seq<T>, page: int, p: int): (r: seq<T>)
    requires page >= 1 && p >= 1
    ensures |r| <= p
    ensures PageStart(page, p) >= |s| <==> r == []
    ensures PageStart(page, p) < |s| ==> |r| == Min(p, |s| - PageStart(page, p))
    ensures forall k :: 0 <= k < |r| ==> r[k] == s[PageStart(page, p) + k]
  {
    var start := PageStart(page, p);
    assert start >= 0;
    s[Min(start, |s|)..Min(start + p, |s|)]
  }

  /** Pages 1..k laid end to end. */
  function Pages<T>(s: seq<T>, p: int, k: nat): seq<T>
    requires p >= 1
  {
    if k == 0 then [] else Pages(s, p, k - 1) + PageSlice(s, k, p)
  }

  lemma {:induction false} PagesArePrefix<T>(s: seq<T>, p: int, k: nat)
    requires p >= 1
    ensures Pages(s, p, k) == s[..Min(k * p, |s|)]
  {
    if k > 0 {
      PagesArePrefix(s, p, k - 1);
      assert (k - 1) * p + p == k * p;
      var a, b := Min((k - 1) * p, |s|), Min(k * p, |s|);
      assert (k - 1) * p >= 0;
      assert s[..a] + s[a..b] == s[..b];
    }
  }

  /** Pages 1..totalPages concatenated reproduce the sorted list. */
  lemma PagesReproduce<T>(s: seq<T>, p: int)
    requires p >= 1
    ensures Pages(s, p, TotalPages(|s|, p)) == s
  {
    var t := TotalPages(|s|, p);
    PagesArePrefix(s, p, t);
    assert s[..|s|] == s;
  }

  /** Every page before the last is full. */
  lemma OnlyLastPageShort<T>(s: seq<T>, p: int, k: int)
    requires p >= 1 && 1 <= k < TotalPages(|s|, p)
    ensures |PageSlice(s, k, p)| == p
  {
    var t := TotalPages(|s|, p);
    assert k * p <= (t - 1) * p by {
      assert (t - 1) * p - k * p == (t - 1 - k) * p;
    }
    assert PageStart(k, p) + p == k * p;
  }

  /** The "Showing first to last of total results" line. */
  datatype Range = Range(first: int, last: int, total: nat)

  /** Shown only when the sorted list is non-empty. */
  function ShowingRange(n: nat, page: int, p: int): (r: Option<Range>)
    requires page >= 1 && p >= 1
    ensures r.Some? <==> n > 0
    ensures r.Some? ==> r.value.total == n && r.value.first >= 1 && r.value.last <= n
  {
    if n > 0 then Some(Range(PageStart(page, p) + 1, Min(PageStart(page, p) + p, n), n)) else None
  }

  /** On a page that holds rows, the line names exactly their 1-based
      positions; on a page past the end (the current page is never clamped)
      the slice is empty and the line reads backwards, first > last. */
  lemma RangeDescribesPage<T>(s: seq<T>, page: int, p: int)
    requires page >= 1 && p >= 1 && |s| > 0
    ensures var r := ShowingRange(|s|, page, p).value;
      if PageStart(page, p) < |s| then
        1 <= r.first <= r.last <= |s| && s[r.first - 1..r.last] == PageSlice(s, page, p)
        && r.first == PageStart(page, p) + 1 && r.last == PageStart(page, p) + |PageSlice(s, page, p)|
      else
        PageSlice(s, page, p) == [] && r.first > r.last
  {
    var r := ShowingRange(|s|, page, p).value;
    assert PageStart(page, p) >= 0;
    if PageStart(page, p) < |s| {
      var q := PageSlice(s, page, p);
      assert |s[r.first - 1..r.last]| == |q|;
    }
  }

  // ---------------------------------------------------------------------
  // Page-number bar
  // ---------------------------------------------------------------------

  /** The `.filter` over 1..totalPages: first, last, and the current page
      with its two neighbours. */
  predicate PageShown(page: int, total: int, cur: int) {
    page == 1 || page == total || (page >= cur - 1 && page <= cur + 1)
  }

  predicate Increasing(s: seq<int>) {
    forall i, j :: 0 <= i < j < |s| ==> s[i] < s[j]
  }

  /** The shown pages among k..total, in increasing order. */
  function PageNumbersFrom(k: int, total: int, cur: int): (r: seq<int>)
    ensures forall x :: x in r <==> k <= x <= total && PageShown(x, total, cur)
    ensures Increasing(r)
    decreases if k <= total then total - k + 1 else 0
  {
    if k > total then []
    else
      var rest := PageNumbersFrom(k + 1, total, cur);
      if PageShown(k, total, cur) then
        assert forall j :: 0 < j < |[k] + rest| ==> ([k] + rest)[j] == rest[j - 1] && rest[j - 1] in rest;
        [k] + rest
      else rest
  }

  /** `Array.from({ length: totalPages }, (_, i) => i + 1).filter(...)` */
  function PageNumbers(total: int, cur: int): (r: seq<int>)
    ensures forall x :: x in r <==> 1 <= x <= total && PageShown(x, total, cur)
    ensures Increasing(r)
    ensures total >= 1 ==> r != [] && r[0] == 1 && r[|r| - 1] == total
    ensures total < 1 ==> r == []
  {
    var r := PageNumbersFrom(1, total, cur);
    IncreasingEnds(r, 1, total);
    r
  }

  /** An increasing list holding its lower and upper bound starts with the
      one and ends with the other. */
  lemma IncreasingEnds(r: seq<int>, lo: int, hi: int)
    requires Increasing(r)
    requires forall x :: x in r ==> lo <= x <= hi
    requires lo <= hi ==> lo in r && hi in r
    ensures lo <= hi ==> r != [] && r[0] == lo && r[|r| - 1] == hi
    ensures lo > hi ==> r == []
  {
    assert r != [] ==> r[0] in r;
    if lo <= hi {
      var i :| 0 <= i < |r| && r[i] == lo;
      var j :| 0 <= j < |r| && r[j] == hi;
      assert r[0] in r && r[|r| - 1] in r;
    }
  }

  lemma {:induction false} IncreasingWithin(s: seq<int>, bound: set<int>)
    requires Increasing(s)
    requires forall i :: 0 <= i < |s| ==> s[i] in bound
    ensures |s| <= |bound|
  {
    if s != [] {
      var rest := bound - {s[0]};
      assert forall i :: 0 <= i < |s[1..]| ==> s[1..][i] == s[i + 1] && s[i + 1] in rest;
      IncreasingWithin(s[1..], rest);
    }
  }

  /** The bar never shows more than five page numbers. */
  lemma PageNumbersAtMostFive(total: int, cur: int)
    ensures |PageNumbers(total, cur)| <= 5
  {
    var s := PageNumbers(total, cur);
    var bound := {1, total, cur - 1, cur, cur + 1};
    forall i | 0 <= i < |s| ensures s[i] in bound {
      assert s[i] in s;
      assert PageShown(s[i], total, cur);
      if s[i] != 1 && s[i] != total {
        assert s[i] == cur - 1 || s[i] == cur || s[i] == cur + 1;
      }
    }
    IncreasingWithin(s, bound);
    assert |{1, total}| <= 2;
    assert |{1, total, cur - 1}| <= 3;
    assert |{1, total, cur - 1, cur}| <= 4;
  }

  /** One item of the bar: an ellipsis marker or a page button (highlighted
      when it is the current page). */
  datatype Control = Ellipsis | PageButton(page: int, current: bool)

  /** The `.map((page, index, array) => ...)`: before each page an ellipsis
      when there is a previous entry and it is not `page - 1`. */
  function ControlsAfter(prev: Option<int>, nums: seq<int>, cur: int): (r: seq<Control>)
    ensures |nums| <= |r| <= 2 * |nums|
    decreases |nums|
  {
    if nums == [] then []
    else
      var gap := if prev.Some? && prev.value != nums[0] - 1 then [Ellipsis] else [];
      gap + [PageButton(nums[0], nums[0] == cur)] + ControlsAfter(Some(nums[0]), nums[1..], cur)
  }

  /** The bar for `totalPages` pages: empty when there are none, otherwise
      it opens with the button of page 1 and closes with the button of the
      last page, highlighted when they are current. */
  function PageControls(total: int, cur: int): (r: seq<Control>)
    ensures total < 1 <==> r == []
    ensures total >= 1 ==> r[0] == PageButton(1, cur == 1) && r[|r| - 1] == PageButton(total, total == cur)
  {
    var nums := PageNumbers(total, cur);
    var r := ControlsAfter(None, nums, cur);
    if nums == [] then r
    else
      ControlsAfterLast(None, nums, cur);
      r
  }

  /** The bar never ends with an ellipsis: its last control is the button
      of the last number. */
  lemma {:induction false} ControlsAfterLast(prev: Option<int>, nums: seq<int>, cur: int)
    requires nums != []
    ensures var r := ControlsAfter(prev, nums, cur);
      r != [] && r[|r| - 1] == PageButton(nums[|nums| - 1], nums[|nums| - 1] == cur)
    decreases |nums|
  {
    if |nums| > 1 {
      ControlsAfterLast(Some(nums[0]), nums[1..], cur);
    }
  }

  /** The page numbers of the buttons, ellipses dropped. */
  function ButtonPages(cs: seq<Control>): seq<int> {
    if cs == [] then []
    else (if cs[0].PageButton? then [cs[0].page] else []) + ButtonPages(cs[1..])
  }

  /** Two buttons side by side are consecutive pages; an ellipsis never
      opens or closes the bar, and sits between two buttons whose pages are
      not consecutive. */
  predicate Spaced(cs: seq<Control>) {
    && (forall i :: 0 <= i < |cs| - 1 && cs[i].PageButton? && cs[i + 1].PageButton? ==>
          cs[i + 1].page == cs[i].page + 1)
    && (forall i :: 0 <= i < |cs| ==> EllipsisFlanked(cs, i))
  }

  /** One step of `ControlsAfter`: the optional ellipsis, the button, the rest. */
  lemma ControlsAfterUnfold(prev: Option<int>, nums: seq<int>, cur: int)
    requires nums != []
    ensures var r := ControlsAfter(prev, nums, cur);
      var rest := ControlsAfter(Some(nums[0]), nums[1..], cur);
      var g := if prev.Some? && prev.value != nums[0] - 1 then 1 else 0;
      && |r| == g + 1 + |rest|
      && (g == 1 ==> r[0] == Ellipsis)
      && r[g] == PageButton(nums[0], nums[0] == cur)
      && r[g + 1..] == rest
      && (forall i :: 0 <= i < |rest| ==> r[g + 1 + i] == rest[i])
  {
  }

  lemma {:induction false} ControlsAfterButtons(prev: Option<int>, nums: seq<int>, cur: int)
    ensures ButtonPages(ControlsAfter(prev, nums, cur)) == nums
    decreases |nums|
  {
    if nums != [] {
      var r := ControlsAfter(prev, nums, cur);
      var rest := ControlsAfter(Some(nums[0]), nums[1..], cur);
      ControlsAfterUnfold(prev, nums, cur);
      ControlsAfterButtons(Some(nums[0]), nums[1..], cur);
      if prev.Some? && prev.value != nums[0] - 1 {
        assert r[1..][1..] == rest;
        assert ButtonPages(r) == ButtonPages(r[1..]);
      } else {
        assert r[1..] == rest;
      }
      assert nums == [nums[0]] + nums[1..];
    }
  }

  /** Every button is highlighted exactly when it is the current page. */
  lemma {:induction false} ControlsAfterHighlight(prev: Option<int>, nums: seq<int>, cur: int)
    ensures var r := ControlsAfter(prev, nums, cur);
      forall i :: 0 <= i < |r| && r[i].PageButton? ==> r[i].current == (r[i].page == cur)
    decreases |nums|
  {
    if nums != [] {
      ControlsAfterUnfold(prev, nums, cur);
      ControlsAfterHighlight(Some(nums[0]), nums[1..], cur);
    }
  }

  /** How the controls for a non-empty list begin. */
  lemma ControlsAfterHead(prev: Option<int>, nums: seq<int>, cur: int)
    requires nums != []
    ensures var r := ControlsAfter(prev, nums, cur);
      if prev.Some? && prev.value != nums[0] - 1 then
        |r| >= 2 && r[0] == Ellipsis && r[1].PageButton? && r[1].page == nums[0]
      else
        r[0].PageButton? && r[0].page == nums[0]
  {
    ControlsAfterUnfold(prev, nums, cur);
  }

  lemma {:induction false} ControlsAfterAdjacent(prev: Option<int>, nums: seq<int>, cur: int)
    ensures var r := ControlsAfter(prev, nums, cur);
      forall i :: 0 <= i < |r| - 1 && r[i].PageButton? && r[i + 1].PageButton? ==>
        r[i + 1].page == r[i].page + 1
    decreases |nums|
  {
    if nums != [] {
      var r := ControlsAfter(prev, nums, cur);
      var rest := ControlsAfter(Some(nums[0]), nums[1..], cur);
      var g := if prev.Some? && prev.value != nums[0] - 1 then 1 else 0;
      ControlsAfterUnfold(prev, nums, cur);
      ControlsAfterAdjacent(Some(nums[0]), nums[1..], cur);
      if nums[1..] != [] {
        ControlsAfterHead(Some(nums[0]), nums[1..], cur);
      }
      forall i | 0 <= i < |r| - 1 && r[i].PageButton? && r[i + 1].PageButton?
        ensures r[i + 1].page == r[i].page + 1
      {
        if i > g {
          assert r[i] == rest[i - g - 1] && r[i + 1] == rest[i - g];
        }
      }
    }
  }

  /** The control at i, if an ellipsis, has a button on each side, and the
      two pages are not consecutive. */
  predicate EllipsisFlanked(cs: seq<Control>, i: int)
    requires 0 <= i < |cs|
  {
    cs[i].Ellipsis? ==>
      0 < i < |cs| - 1 && cs[i - 1].PageButton? && cs[i + 1].PageButton? &&
      cs[i + 1].page != cs[i - 1].page + 1
  }

  lemma {:induction false} ControlsAfterEllipsis(prev: Option<int>, nums: seq<int>, cur: int)
    ensures var r := ControlsAfter(prev, nums, cur);
      forall i :: 0 < i < |r| ==> EllipsisFlanked(r, i)
    decreases |nums|
  {
    if nums != [] {
      var r := ControlsAfter(prev, nums, cur);
      var rest := ControlsAfter(Some(nums[0]), nums[1..], cur);
      var g := if prev.Some? && prev.value != nums[0] - 1 then 1 else 0;
      ControlsAfterUnfold(prev, nums, cur);
      ControlsAfterEllipsis(Some(nums[0]), nums[1..], cur);
      if nums[1..] != [] {
        ControlsAfterHead(Some(nums[0]), nums[1..], cur);
      }
      forall i | 0 < i < |r| ensures EllipsisFlanked(r, i) {
        if i == g + 1 {
          assert r[i] == rest[0] && r[i - 1] == PageButton(nums[0], nums[0] == cur);
          if rest[0].Ellipsis? {
            assert r[i + 1] == rest[1];
          }
        } else if i > g + 1 {
          var k := i - g - 1;
          assert EllipsisFlanked(rest, k);
          assert r[i] == rest[k];
          if rest[k].Ellipsis? {
            assert r[i - 1] == rest[k - 1] && r[i + 1] == rest[k + 1];
          }
        }
      }
    }
  }

  /** The bar with its ellipses is well spaced and lists exactly the shown
      pages. */
  lemma PageControlsShape(total: int, cur: int)
    ensures var cs := PageControls(total, cur);
      ButtonPages(cs) == PageNumbers(total, cur) && Spaced(cs)
  {
    var nums := PageNumbers(total, cur);
    ControlsAfterButtons(None, nums, cur);
    ControlsAfterAdjacent(None, nums, cur);
    ControlsAfterEllipsis(None, nums, cur);
    if nums != [] { ControlsAfterHead(None, nums, cur); }
  }

  /** An ellipsis stands for at least one real page that has no button:
      the page right after the button before it. */
  lemma EllipsisHidesAPage(total: int, cur: int, i: int)
    requires var cs := PageControls(total, cur); 0 <= i < |cs| && cs[i].Ellipsis?
    ensures var cs := PageControls(total, cur);
      0 < i && cs[i - 1].PageButton? &&
      var hidden := cs[i - 1].page + 1;
      1 <= hidden <= total && hidden !in PageNumbers(total, cur)
  {
    var cs := PageControls(total, cur);
    var nums := PageNumbers(total, cur);
    PageControlsShape(total, cur);
    assert EllipsisFlanked(cs, i);
    var a, b := cs[i - 1].page, cs[i + 1].page;
    ButtonsInPages(cs, i - 1);
    ButtonsInPages(cs, i + 1);
    ButtonOrder(cs, i - 1, i + 1);
    // a and b are neighbours among the shown pages and b is not a + 1.
    ButtonsAdjacent(cs, nums, i - 1, i + 1);
  }

  lemma {:induction false} ButtonsInPages(cs: seq<Control>, i: int)
    requires 0 <= i < |cs| && cs[i].PageButton?
    ensures cs[i].page in ButtonPages(cs)
  {
    if i > 0 {
      ButtonsInPages(cs[1..], i - 1);
      assert cs[1..][i - 1] == cs[i];
    }
  }

  /** Index of the i-th control's page among the button pages. */
  function ButtonIndex(cs: seq<Control>, i: int): (k: nat)
    requires 0 <= i < |cs| && cs[i].PageButton?
    ensures k < |ButtonPages(cs)| && ButtonPages(cs)[k] == cs[i].page
  {
    if i == 0 then 0
    else
      var k := ButtonIndex(cs[1..], i - 1);
      assert cs[1..][i - 1] == cs[i];
      var lead := if cs[0].PageButton? then [cs[0].page] else [];
      assert ButtonPages(cs) == lead + ButtonPages(cs[1..]);
      |lead| + k
  }

  lemma {:induction false} ButtonIndexMonotone(cs: seq<Control>, i: int, j: int)
    requires 0 <= i < j < |cs| && cs[i].PageButton? && cs[j].PageButton?
    ensures ButtonIndex(cs, i) < ButtonIndex(cs, j)
    ensures j == i + 2 && cs[i + 1].Ellipsis? ==> ButtonIndex(cs, j) == ButtonIndex(cs, i) + 1
  {
    if i > 0 {
      assert cs[1..][i - 1] == cs[i] && cs[1..][j - 1] == cs[j];
      ButtonIndexMonotone(cs[1..], i - 1, j - 1);
      if j == i + 2 { assert cs[1..][i] == cs[i + 1]; }
    } else {
      assert cs[1..][j - 1] == cs[j];
      if j == 2 && cs[1].Ellipsis? {
        assert cs[1..][0] == cs[1];
        assert cs[1..][1..][0] == cs[2];
        assert ButtonIndex(cs[1..], 1) == ButtonIndex(cs[1..][1..], 0);
      }
    }
  }

  lemma ButtonOrder(cs: seq<Control>, i: int, j: int)
    requires 0 <= i < j < |cs| && cs[i].PageButton? && cs[j].PageButton?
    requires Increasing(ButtonPages(cs))
    ensures cs[i].page < cs[j].page
  {
    ButtonIndexMonotone(cs, i, j);
  }

  lemma ButtonsAdjacent(cs: seq<Control>, nums: seq<int>, i: int, j: int)
    requires ButtonPages(cs) == nums && Increasing(nums)
    requires 0 <= i && j == i + 2 && j < |cs| && cs[i].PageButton? && cs[i + 1].Ellipsis? && cs[j].PageButton?
    ensures cs[i].page + 1 !in nums || cs[i].page + 1 == cs[j].page
  {
    ButtonIndexMonotone(cs, i, j);
    var k := ButtonIndex(cs, i);
    if cs[i].page + 1 in nums {
      var m :| 0 <= m < |nums| && nums[m] == cs[i].page + 1;
      assert k < m;
      assert m <= k + 1;
    }
  }

  /** Ten pages around page 5: 1 … 4 5 6 … 10. */
  lemma PageNumbersTenAroundFive()
    ensures PageNumbers(10, 5) == [1, 4, 5, 6, 10]
  {
    assert PageNumbersFrom(11, 10, 5) == [];
    assert PageNumbersFrom(10, 10, 5) == [10];
    assert PageNumbersFrom(9, 10, 5) == [10];
    assert PageNumbersFrom(8, 10, 5) == [10];
    assert PageNumbersFrom(7, 10, 5) == [10];
    assert PageNumbersFrom(6, 10, 5) == [6, 10];
    assert PageNumbersFrom(5, 10, 5) == [5, 6, 10];
    assert PageNumbersFrom(4, 10, 5) == [4, 5, 6, 10];
    assert PageNumbersFrom(3, 10, 5) == [4, 5, 6, 10];
    assert PageNumbersFrom(2, 10, 5) == [4, 5, 6, 10];
  }

  lemma ControlsAfterOneTenAroundFive()
    ensures ControlsAfter(Some(1), [4, 5, 6, 10], 5) ==
      [Ellipsis, PageButton(4, false), PageButton(5, true), PageButton(6, false), Ellipsis, PageButton(10, false)]
  {
    assert ControlsAfter(Some(10), [], 5) == [];
    assert ControlsAfter(Some(6), [10], 5) == [Ellipsis, PageButton(10, false)];
    assert ControlsAfter(Some(5), [6, 10], 5) == [PageButton(6, false), Ellipsis, PageButton(10, false)];
    assert ControlsAfter(Some(4), [5, 6, 10], 5) ==
      [PageButton(5, true), PageButton(6, false), Ellipsis, PageButton(10, false)];
    assert [4, 5, 6, 10][1..] == [5, 6, 10];
  }

  /** The leading button of a bar that starts with no previous page. */
  lemma ControlsAfterFirst(nums: seq<int>, cur: int)
    requires nums != []
    ensures ControlsAfter(None, nums, cur) ==
      [PageButton(nums[0], nums[0] == cur)] + ControlsAfter(Some(nums[0]), nums[1..], cur)
  {
  }

  /** Ten pages around page 5: 1 … 4 [5] 6 … 10. */
  lemma PageControlsTenAroundFive()
    ensures PageControls(10, 5) == [PageButton(1, false), Ellipsis, PageButton(4, false),
      PageButton(5, true), PageButton(6, false), Ellipsis, PageButton(10, false)]
  {
    var nums := PageNumbers(10, 5);
    PageNumbersTenAroundFive();
    ControlsAfterOneTenAroundFive();
    assert nums[0] == 1 && nums[1..] == [4, 5, 6, 10];
    ControlsAfterFirst(nums, 5);
    PrependButton(PageControls(10, 5));
  }

  /** Flattens the concatenation of the leading button and the rest; proved
      apart because the literal equality is costly in the caller's context. */
  lemma PrependButton(r: seq<Control>)
    requires r == [PageButton(1, false)] + [Ellipsis, PageButton(4, false), PageButton(5, true),
      PageButton(6, false), Ellipsis, PageButton(10, false)]
    ensures r == [PageButton(1, false), Ellipsis, PageButton(4, false),
      PageButton(5, true), PageButton(6, false), Ellipsis, PageButton(10, false)]
  {
  }

  /** Three pages from page 1: 1 2 3, no ellipsis. */
  lemma PageControlsThreeFromOne()
    ensures PageNumbers(3, 1) == [1, 2, 3]
    ensures PageControls(3, 1) == [PageButton(1, true), PageButton(2, false), PageButton(3, false)]
  {
    assert PageNumbersFrom(4, 3, 1) == [];
    assert PageNumbersFrom(3, 3, 1) == [3];
    assert PageNumbersFrom(2, 3, 1) == [2, 3];
    assert PageNumbersFrom(1, 3, 1) == [1, 2, 3];
    assert ControlsAfter(Some(3), [], 1) == [];
    assert ControlsAfter(Some(2), [3], 1) == [PageButton(3, false)];
    assert ControlsAfter(Some(1), [2, 3], 1) == [PageButton(2, false), PageButton(3, false)];
  }

  // ---------------------------------------------------------------------
  // Query state and its handlers
  // ---------------------------------------------------------------------

  /** `handleSort(field)`: the same column flips the direction, another
      column is selected in descending order. */
  function NextSort(sortBy: string, order: Order, field: string): (r: (string, Order))
    ensures r.0 == field
    ensures field == sortBy ==> r.1 != order
    ensures field != sortBy ==> r.1 == Desc
  {
    if sortBy == field then (sortBy, if order == Asc then Desc else Asc) else (field, Desc)
  }

  /** Clicking the current column twice restores the sort; clicking a new
      column twice sorts it ascending, whatever the direction was before. */
  lemma HandleSortTwice(sortBy: string, order: Order, field: string)
    ensures var once := NextSort(sortBy, order, field);
      var twice := NextSort(once.0, once.1, field);
      if field == sortBy then twice == (sortBy, order) else twice == (field, Asc)
  {
  }

  /** Everything the table shows for one state and one client list. The
      range line, the page bar and the two buttons belong to one block that
      is hidden for an empty list, so they are then absent (`None`, `[]`). */
  datatype TableView = TableView(
    filtered: seq<Client>,
    sorted: seq<Client>,
    totalPages: nat,
    rows: seq<Client>,
    range: Option<Range>,
    controls: seq<Control>,
    previousDisabled: Option<bool>,
    nextDisabled: Option<bool>)

  class QueryState {
    var searchTerm: string
    var sortBy: string
    var currentPage: int
    var itemsPerPage: int
    var sortOrder: Order

    /** The page number never drops below 1 and the page size is one of the
        select's options. */
    ghost predicate Valid()
      reads this
    {
      currentPage >= 1 && itemsPerPage in PageSizeOptions
    }

    /** The `useState` defaults. */
    constructor ()
      ensures Valid()
      ensures searchTerm == "" && sortBy == "createdAt" && sortOrder == Desc
      ensures currentPage == 1 && itemsPerPage == 10
    {
      searchTerm := "";
      sortBy := "createdAt";
      currentPage := 1;
      itemsPerPage := 10;
      sortOrder := Desc;
    }

    /** A click on a column header. */
    method HandleSort(field: string)
      requires Valid()
      modifies this
      ensures Valid()
      ensures (sortBy, sortOrder) == NextSort(old(sortBy), old(sortOrder), field)
      ensures searchTerm == old(searchTerm) && currentPage == old(currentPage)
      ensures itemsPerPage == old(itemsPerPage)
    {
      if sortBy == field {
        sortOrder := if sortOrder == Asc then Desc else Asc;
      } else {
        sortBy := field;
        sortOrder := Desc;
      }
    }

    /** The page-size select: a new size and back to page 1. */
    method ChoosePageSize(size: int)
      requires Valid() && size in PageSizeOptions
      modifies this
      ensures Valid()
      ensures itemsPerPage == size && currentPage == 1
      ensures searchTerm == old(searchTerm) && sortBy == old(sortBy) && sortOrder == old(sortOrder)
    {
      itemsPerPage := size;
      currentPage := 1;
    }

    /** The search box: only the term changes; the page is not reset. */
    method TypeSearch(term: string)
      requires Valid()
      modifies this
      ensures Valid()
      ensures searchTerm == term
      ensures currentPage == old(currentPage) && itemsPerPage == old(itemsPerPage)
      ensures sortBy == old(sortBy) && sortOrder == old(sortOrder)
    {
      searchTerm := term;
    }

    /** Previous: disabled on page 1, otherwise one page back. */
    method Previous()
      requires Valid()
      modifies this
      ensures Valid()
      ensures currentPage == if old(currentPage) == 1 then 1 else old(currentPage) - 1
      ensures currentPage == old(currentPage) <==> old(currentPage) == 1
      ensures currentPage <= old(currentPage)
      ensures searchTerm == old(searchTerm) && itemsPerPage == old(itemsPerPage)
      ensures sortBy == old(sortBy) && sortOrder == old(sortOrder)
    {
      if currentPage != 1 {
        currentPage := currentPage - 1;
      }
    }

    /** Next: disabled exactly on page `totalPages`, otherwise one page on.
        From a page in 1..totalPages it stays there; from a page past the end
        it keeps going. `totalPages` is the count the component derives from
        the current list (`Derive`'s `totalPages`). */
    method Next(totalPages: nat)
      requires Valid()
      modifies this
      ensures Valid()
      ensures currentPage == if old(currentPage) == totalPages then totalPages else old(currentPage) + 1
      ensures currentPage == old(currentPage) <==> old(currentPage) == totalPages
      ensures 1 <= old(currentPage) <= totalPages ==> 1 <= currentPage <= totalPages
      ensures searchTerm == old(searchTerm) && itemsPerPage == old(itemsPerPage)
      ensures sortBy == old(sortBy) && sortOrder == old(sortOrder)
    {
      if currentPage != totalPages {
        currentPage := currentPage + 1;
      }
    }

    /** A page button of the bar. */
    method SelectPage(totalPages: nat, page: int)
      requires Valid() && page in PageNumbers(totalPages, currentPage)
      modifies this
      ensures Valid()
      ensures currentPage == page && 1 <= currentPage <= totalPages
      ensures searchTerm == old(searchTerm) && itemsPerPage == old(itemsPerPage)
      ensures sortBy == old(sortBy) && sortOrder == old(sortOrder)
    {
      currentPage := page;
    }

    /** The table derived from the current state: the filtered clients, their
        sorted permutation, the rows of the current page, the range line and
        the page bar (both only for a non-empty list), and the button guards. */
    method Derive(clients: seq<Client>) returns (v: TableView)
      requires Valid()
      ensures v.filtered == FilterClients(clients, searchTerm)
      ensures multiset(v.sorted) == multiset(v.filtered) && SortedBy(v.sorted, sortBy, sortOrder)
      ensures v.totalPages == TotalPages(|v.sorted|, itemsPerPage)
      ensures v.rows == PageSlice(v.sorted, currentPage, itemsPerPage)
      ensures v.range == ShowingRange(|v.sorted|, currentPage, itemsPerPage)
      ensures v.controls == if v.sorted == [] then [] else PageControls(v.totalPages, currentPage)
      ensures v.previousDisabled == if v.sorted == [] then None else Some(currentPage == 1)
      ensures v.nextDisabled == if v.sorted == [] then None else Some(currentPage == v.totalPages)
    {
      var filtered := FilterClients(clients, searchTerm);
      var sorted := SortClients(filtered, sortBy, sortOrder);
      var total := TotalPages(|sorted|, itemsPerPage);
      var rows := PageSlice(sorted, currentPage, itemsPerPage);
      var controls := if sorted == [] then [] else PageControls(total, currentPage);
      var previous := if sorted == [] then None else Some(currentPage == 1);
      var next := if sorted == [] then None else Some(currentPage == total);
      v := TableView(filtered, sorted, total, rows, ShowingRange(|sorted|, currentPage, itemsPerPage),
        controls, previous, next);
    }
  }
}
