/**
 * stats/stats.go: the status message that lists every active role.
 *
 * The active-role query (filter and ORDER BY) is a function of the table;
 * the rows.Next loop that swaps in guild nicknames, the text builder and the
 * search through recent channel messages are loops proved against the
 * functions that specify them; the StatsManager class keeps the cached id of
 * its message and updates it the way updateStats does.
 */
module Stats {
  import opened Wrappers
  import opened Text
  import opened Models
  import opened Database
  import opened Platform

  /** The four columns getActiveRoles selects. */
  datatype StatRow = StatRow(userId: string, userName: string, roleName: string, expiresAt: int)

  function StatOf(r: UserRole): StatRow {
    StatRow(r.userId, r.userName, r.roleName, r.expiresAt)
  }

  // ---------------------------------------------------------------------------
  // ORDER BY role_name, user_name

  /** a may come before b: by role name, then by user name, code point by code point. */
  predicate InOrder(a: StatRow, b: StatRow) {
    Less(a.roleName, b.roleName) || (a.roleName == b.roleName && !Less(b.userName, a.userName))
  }

  predicate Sorted(s: seq<StatRow>) {
    forall i, j :: 0 <= i < j < |s| ==> InOrder(s[i], s[j])
  }

  lemma {:induction false} LessTransitive(a: string, b: string, c: string)
    requires Less(a, b) && Less(b, c)
    ensures Less(a, c)
  {
    if a != [] && a[0] == b[0] && b[0] == c[0] {
      LessTransitive(a[1..], b[1..], c[1..]);
    }
  }

  /** The order is total and transitive, so sorting by it is well defined up to ties. */
  lemma InOrderTotal(a: StatRow, b: StatRow)
    ensures InOrder(a, b) || InOrder(b, a)
  {
    LessTrichotomy(a.roleName, b.roleName);
    LessAsymmetric(a.userName, b.userName);
  }

  lemma InOrderTransitive(a: StatRow, b: StatRow, c: StatRow)
    requires InOrder(a, b) && InOrder(b, c)
    ensures InOrder(a, c)
  {
    if Less(a.roleName, b.roleName) && Less(b.roleName, c.roleName) {
      LessTransitive(a.roleName, b.roleName, c.roleName);
    } else if a.roleName == b.roleName && b.roleName == c.roleName {
      LessTrichotomy(a.userName, b.userName);
      LessTrichotomy(b.userName, c.userName);
      if Less(a.userName, b.userName) && Less(b.userName, c.userName) {
        LessTransitive(a.userName, b.userName, c.userName);
      }
      LessAsymmetric(a.userName, c.userName);
    }
  }

  /** Put x before the first element it may precede. */
  function Insert(x: StatRow, s: seq<StatRow>): seq<StatRow>
  {
    if s == [] then [x]
    else if InOrder(x, s[0]) then [x] + s
    else [s[0]] + Insert(x, s[1..])
  }

  /** A row that may precede every element of a sorted sequence can go in front of it. */
  lemma SortedCons(x: StatRow, s: seq<StatRow>)
    requires Sorted(s)
    requires forall j :: 0 <= j < |s| ==> InOrder(x, s[j])
    ensures Sorted([x] + s)
  {
    forall i, j | 0 <= i < j < |[x] + s| ensures InOrder(([x] + s)[i], ([x] + s)[j]) {
      assert ([x] + s)[j] == s[j - 1];
      if i > 0 { assert ([x] + s)[i] == s[i - 1]; }
    }
  }

  lemma SortedTail(s: seq<StatRow>)
    requires Sorted(s) && s != []
    ensures Sorted(s[1..])
  {
    var tail := s[1..];
    forall i, j | 0 <= i < j < |tail| ensures InOrder(tail[i], tail[j]) {
      assert tail[i] == s[i + 1] && tail[j] == s[j + 1];
    }
  }

  /** Inserting into a sorted sequence keeps it sorted and adds exactly x. */
  lemma {:induction false} InsertSorted(x: StatRow, s: seq<StatRow>)
    requires Sorted(s)
    ensures Sorted(Insert(x, s))
    ensures multiset(Insert(x, s)) == multiset(s) + multiset{x}
  {
    if s == [] {
    } else if InOrder(x, s[0]) {
      forall j | 0 <= j < |s| ensures InOrder(x, s[j]) {
        if j > 0 { InOrderTransitive(x, s[0], s[j]); }
      }
      SortedCons(x, s);
    } else {
      InOrderTotal(x, s[0]);
      var tail := s[1..];
      SortedTail(s);
      InsertSorted(x, tail);
      var r := Insert(x, tail);
      assert s == [s[0]] + tail;
      forall j | 0 <= j < |r| ensures InOrder(s[0], r[j]) {
        assert r[j] in multiset(r);
        if r[j] != x {
          assert r[j] in multiset(tail);
          var k :| 0 <= k < |tail| && tail[k] == r[j];
          assert s[k + 1] == r[j];
        }
      }
      SortedCons(s[0], r);
    }
  }

  /** The active rows with ids in [1, n), by ascending id: what the WHERE clause keeps. */
  function ActiveById(t: Table, n: int): seq<StatRow>
    decreases n
  {
    if n <= 1 then []
    else ActiveById(t, n - 1) + (if n - 1 in t && t[n - 1].isActive then [StatOf(t[n - 1])] else [])
  }

  /**
   * The query's result set: the active rows of ids in [1, n), put in ORDER BY
   * order one by one. It is sorted by role name, then stored user name, and it
   * is a rearrangement of exactly the active rows.
   */
  function ActiveQuery(t: Table, n: int): (q: seq<StatRow>)
    ensures Sorted(q)
    ensures multiset(q) == multiset(ActiveById(t, n))
    decreases n
  {
    if n <= 1 then []
    else
      var rest := ActiveQuery(t, n - 1);
      if n - 1 in t && t[n - 1].isActive then
        InsertSorted(StatOf(t[n - 1]), rest);
        Insert(StatOf(t[n - 1]), rest)
      else rest
  }

  /** A row is listed exactly when some active row of id in [1, n) has those columns. */
  lemma {:induction false} ActiveByIdMembers(t: Table, n: int, x: StatRow)
    ensures x in ActiveById(t, n) <==> exists id :: 1 <= id < n && id in t && t[id].isActive && StatOf(t[id]) == x
    decreases n
  {
    if n > 1 {
      ActiveByIdMembers(t, n - 1, x);
      if x in ActiveById(t, n) && x !in ActiveById(t, n - 1) {
        assert StatOf(t[n - 1]) == x;
      }
    }
  }

  /** In a valid store the query lists exactly the active rows of the whole table. */
  lemma ValidStoreListsActive(db: Store, x: StatRow)
    requires db.Valid()
    ensures x in ActiveQuery(db.rows, db.nextId) <==>
            exists id :: id in db.rows && db.rows[id].isActive && StatOf(db.rows[id]) == x
  {
    assert x in ActiveQuery(db.rows, db.nextId) <==> x in multiset(ActiveQuery(db.rows, db.nextId));
    ActiveByIdMembers(db.rows, db.nextId, x);
  }

  // ---------------------------------------------------------------------------
  // Nicknames

  /**
   * The name shown for a row: the guild nickname when the member lookup
   * succeeds with a non-empty one, the stored user name otherwise. `nicks`
   * holds the members whose lookup succeeds, with their nickname.
   */
  function DisplayName(r: StatRow, nicks: map<string, string>): (name: string)
    ensures r.userId in nicks && nicks[r.userId] != "" ==> name == nicks[r.userId]
    ensures r.userId !in nicks || nicks[r.userId] == "" ==> name == r.userName
  {
    if r.userId in nicks && nicks[r.userId] != "" then nicks[r.userId] else r.userName
  }

  /** What getActiveRoles returns: the query's rows in its order, each with its display name. */
  function Shown(t: Table, n: int, nicks: map<string, string>): (rs: seq<StatRow>)
    ensures |rs| == |ActiveQuery(t, n)|
    ensures forall k | 0 <= k < |rs| ::
      var q := ActiveQuery(t, n)[k];
      rs[k].userId == q.userId && rs[k].roleName == q.roleName && rs[k].expiresAt == q.expiresAt
      && rs[k].userName == DisplayName(q, nicks)
  {
    var q := ActiveQuery(t, n);
    seq(|q|, k requires 0 <= k < |q| => q[k].(userName := DisplayName(q[k], nicks)))
  }

  // ---------------------------------------------------------------------------
  // formatStatsMessage

  const HeaderLine: string := "**\U{1F4CA} Активные роли:**"
  const NoRoles: string := "Нет активных ролей"
  const Fence: string := "```"
  /** How many recent messages findLastStatsMessage fetches. */
  const FetchLimit: int := 10
  /** The text findLastStatsMessage looks for. */
  const Marker: string := "Активные роли"

  /** One row's line, without its newline. */
  function LineText(r: StatRow): string {
    r.userName + " - " + r.roleName
  }

  function Lines(rs: seq<StatRow>): string
  {
    if rs == [] then "" else Lines(rs[..|rs| - 1]) + LineText(rs[|rs| - 1]) + "\n"
  }

  /** The text of the status message for the rows rs. */
  function StatsMessage(rs: seq<StatRow>): string
  {
    if rs == [] then HeaderLine + "\n" + NoRoles
    else HeaderLine + "\n" + Fence + "\n" + Lines(rs) + Fence
  }

  /** formatStatsMessage: a builder loop over the rows. */
  method FormatStatsMessage(roles: seq<StatRow>) returns (content: string)
    ensures content == StatsMessage(roles)
  {
    if |roles| == 0 {
      return HeaderLine + "\n" + NoRoles;
    }
    var sb := HeaderLine + "\n" + Fence + "\n";
    var k := 0;
    while k < |roles|
      invariant 0 <= k <= |roles|
      invariant sb == HeaderLine + "\n" + Fence + "\n" + Lines(roles[..k])
    {
      assert roles[..k + 1][..k] == roles[..k];
      sb := sb + LineText(roles[k]) + "\n";
      k := k + 1;
    }
    assert roles[..k] == roles;
    content := sb + Fence;
  }

  function Texts(rs: seq<StatRow>): seq<string>
  {
    if rs == [] then [] else [LineText(rs[0])] + Texts(rs[1..])
  }

  lemma {:induction false} LinesAppend(a: seq<StatRow>, b: seq<StatRow>)
    ensures Lines(a + b) == Lines(a) + Lines(b)
    decreases |b|
  {
    if b != [] {
      var b' := b[..|b| - 1];
      assert (a + b)[..|a + b| - 1] == a + b';
      assert (a + b)[|a + b| - 1] == b[|b| - 1];
      LinesAppend(a, b');
    } else {
      assert a + b == a;
    }
  }

  /** The lines of a first row and the rest, followed by more text. */
  lemma LinesCons(r: StatRow, rest: seq<StatRow>, tail: string)
    ensures Lines([r] + rest) + tail == LineText(r) + ['\n'] + (Lines(rest) + tail)
  {
    LinesAppend([r], rest);
    assert [r][..0] == [];
  }

  /** Cutting the row lines at newlines gives back one text per row, in order. */
  lemma {:induction false} SplitLines(rs: seq<StatRow>, tail: string)
    requires forall k :: 0 <= k < |rs| ==> '\n' !in LineText(rs[k])
    ensures Split(Lines(rs) + tail, '\n') == Texts(rs) + Split(tail, '\n')
    decreases |rs|
  {
    if rs == [] {
      assert Lines(rs) + tail == tail;
    } else {
      var r := rs[0];
      var rest := rs[1..];
      assert rs == [r] + rest;
      assert forall k :: 0 <= k < |rest| ==> rest[k] == rs[k + 1];
      var a := LineText(r);
      var b := Lines(rest) + tail;
      LinesCons(r, rest, tail);
      SplitLines(rest, tail);
      SplitAfterFirst(a, b, '\n');
      calc {
        Split(Lines(rs) + tail, '\n');
        Split(a + ['\n'] + b, '\n');
        [a] + Split(b, '\n');
        [a] + (Texts(rest) + Split(tail, '\n'));
        ([a] + Texts(rest)) + Split(tail, '\n');
        Texts(rs) + Split(tail, '\n');
      }
    }
  }

  lemma ConstantsHaveNoNewline()
    ensures '\n' !in HeaderLine && '\n' !in NoRoles && '\n' !in Fence
  {
  }

  /** Read line by line, the message for no rows is the header line and the "no active roles" line. */
  lemma EmptyStatsMessageLines()
    ensures Split(StatsMessage([]), '\n') == [HeaderLine, NoRoles]
  {
    ConstantsHaveNoNewline();
    SplitWithoutSep(NoRoles, '\n');
    SplitAfterFirst(HeaderLine, NoRoles, '\n');
  }

  /**
   * Read line by line, the message for rows rs is the header line, an opening
   * fence, one "name - role" line per row in the order given, and a closing
   * fence.
   */
  lemma StatsMessageLines(rs: seq<StatRow>)
    requires rs != []
    requires forall k :: 0 <= k < |rs| ==> '\n' !in LineText(rs[k])
    ensures Split(StatsMessage(rs), '\n') == [HeaderLine, Fence] + (Texts(rs) + [Fence])
  {
    StatsMessageShape(rs);
    BodyLines(rs);
    ConstantsHaveNoNewline();
    SplitTwoLines(HeaderLine, Fence, Lines(rs) + Fence);
  }

  lemma StatsMessageShape(rs: seq<StatRow>)
    requires rs != []
    ensures StatsMessage(rs) == HeaderLine + "\n" + Fence + "\n" + (Lines(rs) + Fence)
  {
  }

  lemma BodyLines(rs: seq<StatRow>)
    requires forall k :: 0 <= k < |rs| ==> '\n' !in LineText(rs[k])
    ensures Split(Lines(rs) + Fence, '\n') == Texts(rs) + [Fence]
  {
    SplitWithoutSep(Fence, '\n');
    SplitLines(rs, Fence);
  }

  /** Two leading lines without newlines come off as the first two pieces. */
  lemma SplitTwoLines(a: string, b: string, c: string)
    requires '\n' !in a && '\n' !in b
    ensures Split(a + "\n" + b + "\n" + c, '\n') == [a, b] + Split(c, '\n')
  {
    SplitAfterFirst(b, c, '\n');
    assert a + "\n" + b + "\n" + c == a + ['\n'] + (b + ['\n'] + c);
    SplitAfterFirst(a, b + ['\n'] + c, '\n');
  }

  /** Every rendered message carries the marker, so the search can find it again. */
  lemma StatsMessageHasMarker(rs: seq<StatRow>)
    ensures Contains(StatsMessage(rs), Marker)
  {
    assert OccursAt(HeaderLine, Marker, 4);
    ContainsExtend(HeaderLine, StatsMessage(rs)[|HeaderLine|..], Marker);
    assert StatsMessage(rs) == HeaderLine + StatsMessage(rs)[|HeaderLine|..];
  }

  // ---------------------------------------------------------------------------
  // findLastStatsMessage

  /** The fields of a fetched channel message the search reads. */
  datatype Message = Message(id: string, authorId: string, content: string)

  predicate IsStatsMessage(m: Message, botId: string) {
    m.authorId == botId && Contains(m.content, Marker)
  }

  /** The index of the first message the bot wrote that carries the marker, or -1. */
  function FirstStatsIndex(msgs: seq<Message>, botId: string): (k: int)
    ensures -1 <= k < |msgs|
    ensures k >= 0 ==> IsStatsMessage(msgs[k], botId)
    ensures forall j :: 0 <= j < |msgs| && (k < 0 || j < k) ==> !IsStatsMessage(msgs[j], botId)
  {
    if msgs == [] then -1
    else if IsStatsMessage(msgs[0], botId) then 0
    else
      var k := FirstStatsIndex(msgs[1..], botId);
      if k < 0 then -1 else k + 1
  }

  /** The id the search reports: the first match's, or "" when nothing matches. */
  function FoundId(msgs: seq<Message>, botId: string): string {
    var k := FirstStatsIndex(msgs, botId);
    if k < 0 then "" else msgs[k].id
  }

  /** A message the bot rendered is found, unless an earlier match is found first. */
  lemma RenderedIsFound(msgs: seq<Message>, botId: string, k: int, rs: seq<StatRow>)
    requires 0 <= k < |msgs| && msgs[k].authorId == botId && msgs[k].content == StatsMessage(rs)
    ensures 0 <= FirstStatsIndex(msgs, botId) <= k
  {
    StatsMessageHasMarker(rs);
  }

  // ---------------------------------------------------------------------------
  // The manager

  /** The id updateStats edits: the cached one, else the one the search finds. */
  function Adopted(cached: string, fetched: Option<seq<Message>>, botId: string): (id: string)
    ensures cached != "" ==> id == cached
    ensures cached == "" && fetched.None? ==> id == ""
    ensures cached == "" && fetched.Some? ==> id == FoundId(fetched.value, botId)
  {
    if cached != "" then cached
    else match fetched
      case None => ""
      case Some(msgs) => FoundId(msgs, botId)
  }

  /** The id cached after a send: the new message's, or "" when the send failed. */
  function SentId(sent: Option<string>): string {
    if sent.Some? then sent.value else ""
  }

  class StatsManager {
    var db: Store
    var guildId: string
    var channelId: string
    /** The cached id of the status message, "" when there is none. */
    var messageId: string

    /** NewStatsManager: nothing is cached yet. */
    constructor (db: Store, guildId: string, channelId: string)
      ensures this.db == db && this.guildId == guildId && this.channelId == channelId && messageId == ""
    {
      this.db := db;
      this.guildId := guildId;
      this.channelId := channelId;
      messageId := "";
    }

    /** SetDB */
    method SetDB(db: Store)
      modifies this
      ensures this.db == db
      ensures guildId == old(guildId) && channelId == old(channelId) && messageId == old(messageId)
    {
      this.db := db;
    }

    /**
     * getActiveRoles: the query's rows in its order, each row's name replaced
     * by the member's guild nickname when the lookup gives a non-empty one.
     */
    method GetActiveRoles(queryOk: bool, nicks: map<string, string>) returns (r: Result<seq<StatRow>, DbError>)
      requires db.Valid()
      ensures !queryOk ==> r.Failure?
      ensures queryOk ==> r == Success(Shown(db.rows, db.nextId, nicks))
    {
      if !queryOk {
        return Failure(DbFailure);
      }
      var q := ActiveQuery(db.rows, db.nextId);
      var roles: seq<StatRow> := [];
      var k := 0;
      while k < |q|
        invariant 0 <= k <= |q| && |roles| == k
        invariant forall j :: 0 <= j < k ==> roles[j] == q[j].(userName := DisplayName(q[j], nicks))
      {
        var role := q[k];
        if role.userId in nicks && nicks[role.userId] != "" {
          role := role.(userName := nicks[role.userId]);
        }
        roles := roles + [role];
        k := k + 1;
      }
      assert roles == Shown(db.rows, db.nextId, nicks);
      r := Success(roles);
    }

    /**
     * findLastStatsMessage over the fetched recent messages; None when the
     * fetch failed, "" when no message matches.
     */
    method FindLastStatsMessage(fetched: Option<seq<Message>>, botId: string) returns (r: Option<string>)
      ensures fetched.None? ==> r.None?
      ensures fetched.Some? ==> r == Some(FoundId(fetched.value, botId))
    {
      if fetched.None? {
        return None;
      }
      var msgs := fetched.value;
      var k := 0;
      while k < |msgs|
        invariant 0 <= k <= |msgs|
        invariant forall j :: 0 <= j < k ==> !IsStatsMessage(msgs[j], botId)
      {
        if msgs[k].authorId == botId && Contains(msgs[k].content, Marker) {
          assert FirstStatsIndex(msgs, botId) == k;
          return Some(msgs[k].id);
        }
        k := k + 1;
      }
      return Some("");
    }

    /**
     * updateStats. A failed query changes nothing. Otherwise the cache adopts
     * a found message only when it is empty; a cached message is edited, and a
     * failed edit empties the cache; a new message is sent exactly when the
     * cache is empty at that point, and the cache becomes its id, or stays
     * empty when the send fails.
     */
    method UpdateStats(s: Session, queryOk: bool, nicks: map<string, string>, fetched: Option<seq<Message>>,
                       botId: string, editOk: bool, sent: Option<string>)
      requires db.Valid()
      modifies this, s
      ensures db == old(db) && guildId == old(guildId) && channelId == old(channelId)
      ensures !queryOk ==> messageId == old(messageId) && s.intents == old(s.intents)
      ensures queryOk ==>
        var content := StatsMessage(Shown(db.rows, db.nextId, nicks));
        var target := Adopted(old(messageId), fetched, botId);
        var search := if old(messageId) == "" then [FetchMessages(channelId, FetchLimit)] else [];
        && (target != "" && editOk ==>
              messageId == target && s.intents == old(s.intents) + search + [EditMessage(channelId, target, content)])
        && (target != "" && !editOk ==>
              messageId == SentId(sent)
              && s.intents == old(s.intents) + search + [EditMessage(channelId, target, content), SendMessage(channelId, content)])
        && (target == "" ==>
              messageId == SentId(sent) && s.intents == old(s.intents) + search + [SendMessage(channelId, content)])
    {
      var active := GetActiveRoles(queryOk, nicks);
      if active.Failure? {
        return;
      }
      var content := FormatStatsMessage(active.value);
      ghost var search: seq<Intent> := if messageId == "" then [FetchMessages(channelId, FetchLimit)] else [];
      if messageId == "" {
        s.FetchMessages(channelId, FetchLimit);
        var found := FindLastStatsMessage(fetched, botId);
        if found.Some? && found.value != "" {
          messageId := found.value;
        }
      }
      assert messageId == Adopted(old(messageId), fetched, botId);
      assert s.intents == old(s.intents) + search;
      if messageId != "" {
        var ok := s.EditMessage(channelId, messageId, content, editOk);
        if !ok {
          messageId := "";
        }
      }
      if messageId == "" {
        var id := s.SendMessage(channelId, content, sent);
        if id.None? {
          return;
        }
        messageId := id.value;
      }
    }

    /** CleanupStatsMessage: a delete is issued only when an id is cached; the cache is kept. */
    method CleanupStatsMessage(s: Session)
      modifies s
      ensures s.intents == old(s.intents) + (if messageId != "" then [DeleteMessage(channelId, messageId)] else [])
    {
      if messageId != "" {
        s.DeleteMessage(channelId, messageId);
      }
    }
  }
}
