/** Block rules and what they match: store/item_block_rules.go:83-119,
    internal/httpapi/url_parser.go:19-62, internal/httpapi/handler.go:1230-1268, and the bulk import
    of rules, frontend/src/lib/csv-parser.ts:78-124. */
module BlockRules {
  import opened Wrappers
  import opened Text

  datatype Location = Location(host: string, path: string)

  /** What the repository takes from Go's libraries as given: parsing a URL into its host name and
      escaped path, cleaning a URL of tracking parameters, lower-casing, and recognising RFC 3339. */
  datatype Library = Library(parse: string -> Option<Location>, clean: string -> Option<string>,
                             lower: string -> string, isTime: string -> bool)

  datatype UrlRule = UrlRule(ruleType: string, pattern: string)

  datatype UserInfo = UserInfo(user: string, domain: string)

  datatype Rule = Rule(id: string, ruleType: string, value: string, domain: string)

  /** The fields of an item that saving it again overwrites. */
  datatype Details = Details(title: Option<string>, description: Option<string>, author: Option<string>,
                             guid: Option<string>, content: Option<string>, imageUrl: Option<string>,
                             categories: Option<string>)

  predicate HasPrefix(s: string, prefix: string) {
    |prefix| <= |s| && s[..|prefix|] == prefix
  }

  predicate HasSuffix(s: string, suffix: string) {
    |suffix| <= |s| && s[|s| - |suffix|..] == suffix
  }

  predicate Contains(s: string, part: string) {
    exists i :: 0 <= i <= |s| && HasPrefix(s[i..], part)
  }

  // ----- who wrote an item

  /** What one URL rule makes of a location. */
  function ExtractByRule(rule: UrlRule, loc: Location): Option<UserInfo> {
    if rule.ruleType == "subdomain" && HasSuffix(loc.host, "." + rule.pattern) then
      var user := loc.host[..|loc.host| - |rule.pattern| - 1];
      if user != "" && '.' !in user then Some(UserInfo(user, rule.pattern)) else None
    else if rule.ruleType == "path" && HasPrefix(loc.host + loc.path, rule.pattern + "/") then
      var user := Split((loc.host + loc.path)[|rule.pattern| + 1..], '/')[0];
      if user != "" then Some(UserInfo(user, Split(rule.pattern, '/')[0])) else None
    else None
  }

  /** The first rule that finds somebody decides. */
  function ExtractUserInfo(rules: seq<UrlRule>, lib: Library, url: string): Option<UserInfo> {
    match lib.parse(url)
    case None => None
    case Some(loc) => FirstMatch(rules, loc)
  }

  function FirstMatch(rules: seq<UrlRule>, loc: Location): Option<UserInfo> {
    if rules == [] then None
    else
      var info := ExtractByRule(rules[0], loc);
      if info.Some? then info else FirstMatch(rules[1..], loc)
  }

  /** `info` is what `rule`'s pattern says of the location: <user>.<pattern>, or
      <pattern>/<user> and then nothing or another slash. */
  ghost predicate Describes(rule: UrlRule, loc: Location, info: UserInfo) {
    || (rule.ruleType == "subdomain" && info.domain == rule.pattern && loc.host == info.user + "." + rule.pattern
        && info.user != "" && '.' !in info.user)
    || (rule.ruleType == "path" && info.user != "" && '/' !in info.user && '/' !in info.domain
        && (rule.pattern == info.domain || HasPrefix(rule.pattern, info.domain + "/"))
        && (loc.host + loc.path == rule.pattern + "/" + info.user
            || HasPrefix(loc.host + loc.path, rule.pattern + "/" + info.user + "/")))
  }

  lemma {:induction false} SplitFirst(s: string, sep: char)
    ensures sep !in Split(s, sep)[0]
    ensures s == Split(s, sep)[0] || HasPrefix(s, Split(s, sep)[0] + [sep])
  {
    if s != "" {
      SplitFirst(s[1..], sep);
      var first := Split(s[1..], sep)[0];
      if s[0] != sep && s[1..] != first {
        assert ([s[0]] + s[1..])[..|first| + 2] == [s[0]] + (first + [sep]);
      }
    }
  }

  /** The user's name runs up to the first separator. */
  lemma {:induction false} SplitFirstOf(user: string, rest: string, sep: char)
    requires sep !in user && (rest == "" || rest[0] == sep)
    ensures Split(user + rest, sep)[0] == user
  {
    if user != "" {
      assert (user + rest)[1..] == user[1..] + rest;
      SplitFirstOf(user[1..], rest, sep);
      assert user == [user[0]] + user[1..];
    } else {
      assert user + rest == rest;
    }
  }

  lemma SubdomainDescribes(rule: UrlRule, loc: Location, info: UserInfo)
    requires rule.ruleType == "subdomain"
    ensures ExtractByRule(rule, loc) == Some(info) <==> Describes(rule, loc, info)
  {
    var suffix := "." + rule.pattern;
    if HasSuffix(loc.host, suffix) {
      assert loc.host == loc.host[..|loc.host| - |suffix|] + loc.host[|loc.host| - |suffix|..];
    }
    if loc.host == info.user + "." + rule.pattern {
      assert loc.host == info.user + suffix;
      assert loc.host[|loc.host| - |suffix|..] == suffix && loc.host[..|loc.host| - |suffix|] == info.user;
    }
  }

  lemma FirstSegment(s: string, first: string)
    requires '/' !in first && (s == first || HasPrefix(s, first + "/"))
    ensures Split(s, '/')[0] == first
  {
    var rest := s[|first|..];
    assert s == first + rest;
    if s != first {
      assert s[|first|] == (first + "/")[|first|];
    }
    SplitFirstOf(first, rest, '/');
  }

  lemma PathExtracted(rule: UrlRule, loc: Location, info: UserInfo)
    requires rule.ruleType == "path" && ExtractByRule(rule, loc) == Some(info)
    ensures Describes(rule, loc, info)
  {
    hide Split;
    var full := loc.host + loc.path;
    var prefix := rule.pattern + "/";
    var rest := full[|prefix|..];
    assert full == prefix + rest;
    SplitFirst(rest, '/');
    SplitFirst(rule.pattern, '/');
    if rest != info.user {
      assert full == prefix + info.user + "/" + rest[|info.user| + 1..];
    }
  }

  lemma PathDescribed(rule: UrlRule, loc: Location, info: UserInfo)
    requires rule.ruleType == "path" && Describes(rule, loc, info)
    ensures ExtractByRule(rule, loc) == Some(info)
  {
    hide Split;
    var full := loc.host + loc.path;
    var prefix := rule.pattern + "/";
    assert full[..|prefix|] == prefix by {
      if full != prefix + info.user {
        assert full[..|prefix|] == (prefix + info.user + "/")[..|prefix|];
      }
    }
    var rest := full[|prefix|..];
    if full == prefix + info.user {
      assert rest == info.user;
    } else {
      var longer := prefix + info.user + "/";
      assert longer == prefix + (info.user + "/");
      assert rest[..|info.user| + 1] == longer[|prefix|..];
    }
    FirstSegment(rest, info.user);
    FirstSegment(rule.pattern, info.domain);
  }

  /** Cut out of the location by position, the user is the one the pattern describes. */
  lemma ExtractDescribes(rule: UrlRule, loc: Location, info: UserInfo)
    ensures ExtractByRule(rule, loc) == Some(info) <==> Describes(rule, loc, info)
  {
    if rule.ruleType == "subdomain" {
      SubdomainDescribes(rule, loc, info);
    } else if ExtractByRule(rule, loc) == Some(info) {
      PathExtracted(rule, loc, info);
    } else if Describes(rule, loc, info) {
      PathDescribed(rule, loc, info);
    }
  }

  /** The extraction is that of the first rule with a match, and fails only when none has one. */
  lemma {:induction false} FirstMatchIsFirst(rules: seq<UrlRule>, loc: Location)
    ensures FirstMatch(rules, loc).None? <==> forall i :: 0 <= i < |rules| ==> ExtractByRule(rules[i], loc).None?
    ensures FirstMatch(rules, loc).Some? ==>
              exists i :: 0 <= i < |rules| && ExtractByRule(rules[i], loc) == FirstMatch(rules, loc)
                          && forall k :: 0 <= k < i ==> ExtractByRule(rules[k], loc).None?
  {
    if rules != [] && ExtractByRule(rules[0], loc).None? {
      FirstMatchIsFirst(rules[1..], loc);
      assert rules == [rules[0]] + rules[1..];
      if FirstMatch(rules, loc).Some? {
        var i :| 0 <= i < |rules[1..]| && ExtractByRule(rules[1..][i], loc) == FirstMatch(rules[1..], loc)
                 && forall k :: 0 <= k < i ==> ExtractByRule(rules[1..][k], loc).None?;
        assert ExtractByRule(rules[i + 1], loc) == FirstMatch(rules, loc);
        forall k | 0 <= k < i + 1 ensures ExtractByRule(rules[k], loc).None? {
          assert k > 0 ==> rules[k] == rules[1..][k - 1];
        }
      }
    }
  }

  // ----- what a rule blocks

  predicate ContainsKeyword(lib: Library, text: Option<string>, keyword: string) {
    text.Some? && Contains(lib.lower(text.value), lib.lower(keyword))
  }

  function HostName(lib: Library, url: string): string {
    match lib.parse(url) case None => "" case Some(loc) => loc.host
  }

  predicate ShouldBlockItem(lib: Library, url: string, details: Details, rule: Rule, info: Option<UserInfo>) {
    if rule.ruleType == "user" then info.Some? && info.value.user == rule.value
    else if rule.ruleType == "domain" then
      || (info.Some? && info.value.domain == rule.value)
      || (var host := HostName(lib, url); host == rule.value || HasSuffix(host, "." + rule.value))
    else if rule.ruleType == "user_domain" then
      rule.domain != "" && info == Some(UserInfo(rule.value, rule.domain))
    else rule.ruleType == "keyword"
         && (ContainsKeyword(lib, details.title, rule.value) || ContainsKeyword(lib, details.content, rule.value))
  }

  /** Some URL rule's pattern describes the location with this user and domain, and no earlier one
      describes it with anybody. */
  ghost predicate FirstDescribes(rules: seq<UrlRule>, loc: Location, info: UserInfo) {
    exists i :: 0 <= i < |rules| && Describes(rules[i], loc, info)
                && forall k :: 0 <= k < i ==> Undescribed(rules[k], loc)
  }

  ghost predicate Undescribed(rule: UrlRule, loc: Location) {
    forall info :: !Describes(rule, loc, info)
  }

  /** What the address of an item says of its author. */
  ghost predicate WrittenBy(rules: seq<UrlRule>, lib: Library, url: string, info: UserInfo) {
    lib.parse(url).Some? && FirstDescribes(rules, lib.parse(url).value, info)
  }

  lemma UndescribedIs(rule: UrlRule, loc: Location)
    ensures Undescribed(rule, loc) <==> ExtractByRule(rule, loc).None?
  {
    hide Describes, ExtractByRule;
    forall info ensures ExtractByRule(rule, loc) == Some(info) <==> Describes(rule, loc, info) {
      ExtractDescribes(rule, loc, info);
    }
    if ExtractByRule(rule, loc).Some? {
      assert Describes(rule, loc, ExtractByRule(rule, loc).value);
    }
  }

  lemma {:induction false} FirstDescribesIs(rules: seq<UrlRule>, loc: Location, info: UserInfo)
    ensures FirstMatch(rules, loc) == Some(info) <==> FirstDescribes(rules, loc, info)
  {
    hide Describes, Undescribed, ExtractByRule;
    if rules == [] {
    } else {
      UndescribedIs(rules[0], loc);
      ExtractDescribes(rules[0], loc, info);
      FirstDescribesIs(rules[1..], loc, info);
      FirstOrRest(rules, loc, info);
    }
  }

  lemma FirstOrRest(rules: seq<UrlRule>, loc: Location, info: UserInfo)
    requires rules != [] && (Describes(rules[0], loc, info) ==> !Undescribed(rules[0], loc))
    ensures FirstDescribes(rules, loc, info) <==>
              Describes(rules[0], loc, info) || (Undescribed(rules[0], loc) && FirstDescribes(rules[1..], loc, info))
  {
    hide Describes, Undescribed;
    if FirstDescribes(rules, loc, info) {
      var i :| 0 <= i < |rules| && Describes(rules[i], loc, info)
               && forall k :: 0 <= k < i ==> Undescribed(rules[k], loc);
      if i > 0 {
        assert rules[1..][i - 1] == rules[i];
        forall k | 0 <= k < i - 1 ensures Undescribed(rules[1..][k], loc) {
          assert rules[1..][k] == rules[k + 1];
        }
      }
    }
    if Undescribed(rules[0], loc) && FirstDescribes(rules[1..], loc, info) {
      var i :| 0 <= i < |rules[1..]| && Describes(rules[1..][i], loc, info)
               && forall k :: 0 <= k < i ==> Undescribed(rules[1..][k], loc);
      assert Describes(rules[i + 1], loc, info);
      forall k | 0 <= k < i + 1 ensures Undescribed(rules[k], loc) {
        assert k > 0 ==> rules[k] == rules[1..][k - 1];
      }
    }
  }

  /** The extraction finds the author that the address names, and nobody when it names nobody. */
  lemma AuthorIs(rules: seq<UrlRule>, lib: Library, url: string, info: UserInfo)
    ensures ExtractUserInfo(rules, lib, url) == Some(info) <==> WrittenBy(rules, lib, url, info)
  {
    hide FirstMatch, FirstDescribes;
    if lib.parse(url).Some? {
      FirstDescribesIs(rules, lib.parse(url).value, info);
    }
  }

  /** The host of an address, empty if the address has none. */
  ghost predicate HasHost(lib: Library, url: string, host: string) {
    if lib.parse(url).Some? then host == lib.parse(url).value.host else host == ""
  }

  /** The keyword occurs in the text, whatever the case of either. */
  ghost predicate Mentions(lib: Library, text: Option<string>, keyword: string) {
    text.Some? && exists before, after :: lib.lower(text.value) == before + lib.lower(keyword) + after
  }

  lemma ContainsIs(s: string, part: string)
    ensures Contains(s, part) <==> exists before, after :: s == before + part + after
  {
    if Contains(s, part) {
      var i :| 0 <= i <= |s| && HasPrefix(s[i..], part);
      assert s == s[..i] + part + s[i + |part|..];
    }
    if before, after :| s == before + part + after {
      assert s[|before|..] == part + after;
      assert HasPrefix(s[|before|..], part);
    }
  }

  lemma MentionsIs(lib: Library, text: Option<string>, keyword: string)
    ensures ContainsKeyword(lib, text, keyword) <==> Mentions(lib, text, keyword)
  {
    hide Contains;
    if text.Some? {
      ContainsIs(lib.lower(text.value), lib.lower(keyword));
    }
  }

  lemma SuffixIs(s: string, suffix: string)
    ensures HasSuffix(s, suffix) <==> exists before :: s == before + suffix
  {
    if HasSuffix(s, suffix) {
      assert s == s[..|s| - |suffix|] + suffix;
    }
  }

  /** What each kind of rule blocks. */
  ghost predicate Blocks(lib: Library, urlRules: seq<UrlRule>, url: string, details: Details, rule: Rule) {
    || (rule.ruleType == "user" && exists info :: WrittenBy(urlRules, lib, url, info) && info.user == rule.value)
    || (rule.ruleType == "user_domain" && rule.domain != ""
        && WrittenBy(urlRules, lib, url, UserInfo(rule.value, rule.domain)))
    || (rule.ruleType == "domain" && exists info :: WrittenBy(urlRules, lib, url, info) && info.domain == rule.value)
    || (rule.ruleType == "domain" && HasHost(lib, url, rule.value))
    || (rule.ruleType == "domain" && exists sub :: HasHost(lib, url, sub + "." + rule.value))
    || (rule.ruleType == "keyword"
        && (Mentions(lib, details.title, rule.value) || Mentions(lib, details.content, rule.value)))
  }

  /** A rule matches an item exactly when it blocks it: by user the author's name, by user and domain
      both, by domain the author's domain, the host or a host below it, by keyword a mention in title
      or content; a rule of any other kind matches nothing. */
  lemma MatchesByKind(lib: Library, urlRules: seq<UrlRule>, url: string, details: Details, rule: Rule)
    ensures ShouldBlockItem(lib, url, details, rule, ExtractUserInfo(urlRules, lib, url))
       <==> Blocks(lib, urlRules, url, details, rule)
  {
    hide ExtractUserInfo, WrittenBy, ContainsKeyword, Mentions, HasSuffix;
    var found := ExtractUserInfo(urlRules, lib, url);
    forall info ensures found == Some(info) <==> WrittenBy(urlRules, lib, url, info) {
      AuthorIs(urlRules, lib, url, info);
    }
    MentionsIs(lib, details.title, rule.value);
    MentionsIs(lib, details.content, rule.value);
    BelowHost(lib, url, rule.value);
    if found.Some? {
      assert WrittenBy(urlRules, lib, url, found.value);
    }
  }

  lemma BelowHost(lib: Library, url: string, value: string)
    ensures HasHost(lib, url, value) <==> HostName(lib, url) == value
    ensures (exists sub :: HasHost(lib, url, sub + "." + value)) <==> HasSuffix(HostName(lib, url), "." + value)
  {
    var host := HostName(lib, url);
    SuffixIs(host, "." + value);
    assert forall sub: string :: sub + "." + value == sub + ("." + value);
    if before :| host == before + ("." + value) {
      assert HasHost(lib, url, before + "." + value);
    }
    if sub :| HasHost(lib, url, sub + "." + value) {
      assert host == sub + ("." + value);
    }
  }

  // ----- rules as users enter them

  datatype RuleInput = RuleInput(ruleType: string, value: string, domain: Option<string>)

  predicate KnownType(ruleType: string) {
    ruleType == "user" || ruleType == "domain" || ruleType == "user_domain" || ruleType == "keyword"
  }

  predicate Given(text: Option<string>) {
    text.Some? && text.value != ""
  }

  /** What the server accepts. */
  predicate ServerAccepts(r: RuleInput) {
    r.value != "" && KnownType(r.ruleType) && (r.ruleType == "user_domain" ==> Given(r.domain))
  }

  /** The domain the server stores with an accepted rule. */
  function StoredDomain(r: RuleInput): string {
    if Given(r.domain) then r.domain.value else if r.ruleType == "domain" then r.value else ""
  }

  datatype ParsedRule = ParsedRule(ruleType: string, value: string, domain: Option<string>, error: string)

  function TrimAll(row: seq<string>): (parts: seq<string>)
    ensures |parts| == |row|
  {
    if row == [] then [] else [Trim(row[0], JsSpace)] + TrimAll(row[1..])
  }

  predicate AllEmpty(parts: seq<string>) {
    forall i :: 0 <= i < |parts| ==> parts[i] == ""
  }

  function Column(parts: seq<string>, i: nat): string {
    if i < |parts| then parts[i] else ""
  }

  /** A row the browser shows as a rule; `error` is empty when it is valid. */
  function ParsedRow(parts: seq<string>): ParsedRule {
    var (ruleType, value, domain) := (Column(parts, 0), Column(parts, 1), Column(parts, 2));
    ParsedRule(
      ruleType, value,
      if domain != "" then Some(domain)
      else if ruleType == "domain" && |parts| > 1 then Some(value) else None,
      if |parts| > 3 && !AllEmpty(parts[3..]) then "Too many columns"
      else if !KnownType(ruleType) then "Invalid rule type"
      else if value == "" then "Missing value"
      else if ruleType == "user_domain" && domain == "" then "Missing domain for user_domain"
      else "")
  }

  /** The rules of parsed rows, blank rows left out. */
  function ParsedRules(rows: seq<seq<string>>): seq<ParsedRule> {
    if rows == [] then []
    else
      var rest := ParsedRules(rows[..|rows| - 1]);
      var parts := TrimAll(rows[|rows| - 1]);
      if AllEmpty(parts) then rest else rest + [ParsedRow(parts)]
  }

  method ParseBlockRules(rows: seq<seq<string>>) returns (rules: seq<ParsedRule>)
    ensures rules == ParsedRules(rows)
  {
    rules := [];
    for i := 0 to |rows|
      invariant rules == ParsedRules(rows[..i])
    {
      assert rows[..i + 1][..i] == rows[..i];
      var parts := TrimAll(rows[i]);
      if AllEmpty(parts) {
        continue;
      }
      rules := rules + [ParsedRow(parts)];
    }
    assert rows[..|rows|] == rows;
  }

  /** One rule for each row with anything in it, in the order of the rows. */
  lemma {:induction false} ParsedRulesAppend(a: seq<seq<string>>, b: seq<seq<string>>)
    ensures ParsedRules(a + b) == ParsedRules(a) + ParsedRules(b)
    decreases |b|
  {
    if b == [] {
      assert a + b == a;
    } else {
      assert (a + b)[..|a + b| - 1] == a + b[..|b| - 1];
      ParsedRulesAppend(a, b[..|b| - 1]);
    }
  }

  lemma {:induction false} TrimmedColumns(row: seq<string>, i: nat)
    requires i < |row|
    ensures TrimAll(row)[i] == Trim(row[i], JsSpace)
  {
    if i > 0 {
      TrimmedColumns(row[1..], i - 1);
    }
  }

  /** A row of up to three columns reads as type, value and domain, trimmed; a missing column is empty,
      and a domain rule without a domain takes its value. A row is left out when it is blank. */
  lemma ParsedColumns(row: seq<string>)
    requires row != []
    ensures ParsedRules([row]) == [] <==> forall i :: 0 <= i < |row| ==> Trim(row[i], JsSpace) == ""
    ensures ParsedRules([row]) != [] ==>
              var rule := ParsedRules([row])[0];
              && ParsedRules([row]) == [rule] && rule.ruleType == Trim(row[0], JsSpace)
              && rule.value == (if |row| > 1 then Trim(row[1], JsSpace) else "")
              && (|row| > 2 && Trim(row[2], JsSpace) != "" ==> rule.domain == Some(Trim(row[2], JsSpace)))
              && (|row| <= 2 || Trim(row[2], JsSpace) == "" ==>
                    rule.domain == if rule.ruleType == "domain" && |row| > 1 then Some(rule.value) else None)
  {
    hide Trim;
    forall i | 0 <= i < |row| ensures TrimAll(row)[i] == Trim(row[i], JsSpace) {
      TrimmedColumns(row, i);
    }
    hide TrimAll;
    assert [row][..0] == [] && ParsedRules([]) == [];
  }

  /** The browser calls a row valid exactly when it has no stray columns and the server would accept
      the rule; and it then shows the domain the server will store. */
  lemma BrowserAndServerAgree(parts: seq<string>)
    ensures var rule := ParsedRow(parts);
            var input := RuleInput(rule.ruleType, rule.value, rule.domain);
            && (rule.error == "" <==> ServerAccepts(input) && (|parts| > 3 ==> AllEmpty(parts[3..])))
            && (rule.error == "" ==> StoredDomain(input) == if rule.domain.Some? then rule.domain.value else "")
  {}

  /** Of the rules sent to it the server accepts those of a known type with a value and, for a user at
      a domain, a domain; it stores the domain sent, or else the value of a domain rule. */
  lemma ServerRules(input: RuleInput)
    ensures ServerAccepts(input) <==>
              input.value != "" && input.ruleType in {"user", "domain", "user_domain", "keyword"}
              && (input.ruleType == "user_domain" ==> input.domain.Some? && input.domain.value != "")
    ensures input.domain.Some? && input.domain.value != "" ==> StoredDomain(input) == input.domain.value
    ensures input.domain.None? || input.domain.value == "" ==>
              StoredDomain(input) == if input.ruleType == "domain" then input.value else ""
  {}
}
