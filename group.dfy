/**
 * `is_group_admin` and `get_target_user` of the group handlers: who may run
 * a moderation command, and which member a command is aimed at.
 *
 * The chat's member list and the single-member lookup the bot asks the
 * platform for are passed in as values: `members` in the order the platform
 * lists them, and `directory` holding the members a lookup by numeric id
 * finds (a missing key is a failed lookup).
 */
module Group {
  import opened Wrappers
  import opened Text

  datatype User = User(id: int, username: Option<string>)

  /** A command as the bot sees it: the message it replies to, if any, and its arguments. */
  datatype Request = Request(replyTo: Option<User>, args: seq<string>)

  /**
   * `is_group_admin`: the caller's member status, or `None` when the lookup
   * failed.  Only "administrator" and "creator" may moderate.
   */
  function IsGroupAdmin(status: Option<string>): (r: bool)
    ensures r ==> status.Some?
    ensures status.Some? && status.value != "administrator" && status.value != "creator" ==> !r
    ensures status == Some("administrator") || status == Some("creator") ==> r
  {
    match status
    case None => false
    case Some(s) => s in ["administrator", "creator"]
  }

  /** How a member is matched against the target text. */
  datatype Criterion = ByUsername(name: string) | ByIdText(text: string)

  /**
   * A username matches only when it is set, non-empty and exactly equal
   * (case-sensitive); an id matches when its decimal text is the target.
   */
  predicate Matches(u: User, c: Criterion) {
    match c
    case ByUsername(name) => u.username.Some? && u.username.value != "" && u.username.value == name
    case ByIdText(text) => IntToString(u.id) == text
  }

  /** Position `i` holds a matching member and no earlier member matches. */
  predicate IsFirstMatch(members: seq<User>, c: Criterion, i: int) {
    0 <= i < |members| && Matches(members[i], c) && forall j :: 0 <= j < i ==> !Matches(members[j], c)
  }

  /** The first member in list order that matches, as the `async for` loops with an early return do. */
  function FirstMatch(members: seq<User>, c: Criterion): (r: Option<User>)
    ensures r.None? <==> forall i :: 0 <= i < |members| ==> !Matches(members[i], c)
    ensures r.Some? ==> exists i :: IsFirstMatch(members, c, i) && members[i] == r.value
  {
    if members == [] then None
    else if Matches(members[0], c) then Some(members[0])
    else
      var r := FirstMatch(members[1..], c);
      assert forall i :: 1 <= i < |members| ==> members[i] == members[1..][i - 1];
      if r.Some? then
        var k :| IsFirstMatch(members[1..], c, k) && members[1..][k] == r.value;
        assert IsFirstMatch(members, c, k + 1) && members[k + 1] == r.value;
        r
      else
        r
  }

  /** `target.isdigit()`: non-empty and all digits. */
  predicate IsDecimal(s: string) {
    s != [] && AllDigits(s)
  }

  /** `args[0].strip()`, with one leading "@" removed. */
  function TargetText(arg: string): string {
    var t := Strip(arg);
    if |t| > 0 && t[0] == '@' then t[1..] else t
  }

  /** The user found by a numeric-id lookup, or `None` when the lookup fails. */
  function LookupById(target: string, directory: map<int, User>): Option<User> {
    if IsDecimal(target) && DecimalValue(target) in directory then Some(directory[DecimalValue(target)]) else None
  }

  /**
   * `get_target_user`: the sender of the replied-to message; otherwise the
   * first argument tried, in order, as an exact @username, as a numeric id
   * the platform can look up, and as the decimal text of a listed member's
   * id; otherwise `None`.
   */
  function GetTargetUser(req: Request, members: seq<User>, directory: map<int, User>): (r: Option<User>)
    ensures req.replyTo.Some? ==> r == req.replyTo
    ensures req.replyTo.None? && req.args == [] ==> r == None
    ensures r.Some? && req.replyTo.None? ==> r.value in members || r.value in directory.Values
  {
    if req.replyTo.Some? then
      req.replyTo
    else if req.args == [] then
      None
    else
      ResolveArgument(req.args[0], members, directory)
  }

  /** The first rule: an argument starting with "@" names the first member with exactly that username. */
  function UsernameRule(arg: string, members: seq<User>): Option<User> {
    var stripped := Strip(arg);
    if |stripped| > 0 && stripped[0] == '@' then FirstMatch(members, ByUsername(stripped[1..])) else None
  }

  /** The three argument rules of `get_target_user`, tried in order on `args[0]`. */
  function ResolveArgument(arg: string, members: seq<User>, directory: map<int, User>): (r: Option<User>)
    ensures r.Some? ==> r.value in members || r.value in directory.Values
  {
    var byName := UsernameRule(arg, members);
    if byName.Some? then
      byName
    else
      var target := TargetText(arg);
      var byLookup := LookupById(target, directory);
      if byLookup.Some? then byLookup else FirstMatch(members, ByIdText(target))
  }

  /** Only the first argument is looked at: the rest (a reason, a duration) never changes the target. */
  lemma OnlyFirstArgumentCounts(reply: Option<User>, args: seq<string>, args': seq<string>, members: seq<User>, directory: map<int, User>)
    requires args != [] && args' != [] && args[0] == args'[0]
    ensures GetTargetUser(Request(reply, args), members, directory) == GetTargetUser(Request(reply, args'), members, directory)
  {
  }

  /** An "@name" argument matching some member's username resolves to the first such member, before any id rule. */
  lemma UsernameRuleWins(arg: string, members: seq<User>, directory: map<int, User>, i: nat)
    requires Strip(arg) != [] && Strip(arg)[0] == '@'
    requires i < |members| && Matches(members[i], ByUsername(Strip(arg)[1..]))
    ensures var r := GetTargetUser(Request(None, [arg]), members, directory);
      r.Some? && exists k :: k <= i && IsFirstMatch(members, ByUsername(Strip(arg)[1..]), k) && members[k] == r.value
  {
    var c := ByUsername(Strip(arg)[1..]);
    var r := FirstMatch(members, c);
    var k :| IsFirstMatch(members, c, k) && members[k] == r.value;
    assert k <= i;
  }

  /** A member without a username is never the result of the username rule. */
  lemma NoUsernameNeverMatches(u: User, name: string)
    requires u.username.None?
    ensures !Matches(u, ByUsername(name))
  {
  }

  /**
   * With no username match, a decimal target that the lookup finds wins;
   * when the lookup fails, the first listed member whose id text is the
   * target is returned, and `None` when there is none.
   */
  lemma IdRules(arg: string, members: seq<User>, directory: map<int, User>)
    requires UsernameRule(arg, members).None?
    ensures var target := TargetText(arg);
      var r := GetTargetUser(Request(None, [arg]), members, directory);
      (IsDecimal(target) && DecimalValue(target) in directory ==> r == Some(directory[DecimalValue(target)])) &&
      (LookupById(target, directory).None? ==> r == FirstMatch(members, ByIdText(target))) &&
      (r.None? <==> LookupById(target, directory).None? && forall i :: 0 <= i < |members| ==> !Matches(members[i], ByIdText(target)))
  {
  }

  /** A negative id, whose text starts with "-", can only be matched by the last rule. */
  lemma NegativeIdNotLookedUp(u: User, directory: map<int, User>)
    requires u.id < 0
    ensures LookupById(IntToString(u.id), directory) == None
    ensures Matches(u, ByIdText(IntToString(u.id)))
  {
  }
}
