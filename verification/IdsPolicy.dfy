/** IDS policies: how a portable policy is serialised onto the device, and how the revert rebuilds it
    from the stored fields. */
module IdsPolicy {
  import opened Strings
  import opened DeviceStore
  import opened PolicyStore

  function Or(field: Option<string>, default: string): string {
    if field.Some? then field.value else default
  }

  /** The non-empty ones of the first `n` parts. */
  function NonEmptyTo(parts: seq<string>, n: nat): seq<string>
    requires n <= |parts|
  {
    if n == 0 then [] else NonEmptyTo(parts, n - 1) + if parts[n - 1] == "" then [] else [parts[n - 1]]
  }

  function NonEmpty(parts: seq<string>): seq<string> {
    NonEmptyTo(parts, |parts|)
  }

  /** The non-empty parts of a comma-joined field. */
  function Parts(field: string): seq<string> {
    NonEmpty(Split(field, ','))
  }

  /* Metadata filters: `{key: [values]}`, in insertion order */

  datatype Filter = Filter(key: string, values: seq<string>)

  type Content = seq<Filter>

  /** Adds a value to its key's list, which is created on first use. */
  function Insert(c: Content, key: string, value: string): Content {
    if c == [] then [Filter(key, [value])]
    else if c[0].key == key then [Filter(key, c[0].values + [value])] + c[1..]
    else [c[0]] + Insert(c[1..], key, value)
  }

  function Tokens(key: string, values: seq<string>): (r: seq<string>)
    ensures |r| == |values|
    ensures forall i :: 0 <= i < |r| ==> r[i] == key + ['.'] + values[i]
  {
    seq(|values|, i requires 0 <= i < |values| => key + ['.'] + values[i])
  }

  function FlattenContent(c: Content): seq<string> {
    if c == [] then [] else Tokens(c[0].key, c[0].values) + FlattenContent(c[1..])
  }

  /** Those of the first `n` tokens that hold a dot; the others are dropped on the way back. */
  function DottedTo(tokens: seq<string>, n: nat): seq<string>
    requires n <= |tokens|
  {
    if n == 0 then []
    else DottedTo(tokens, n - 1) + if Partition(tokens[n - 1], '.').Some? then [tokens[n - 1]] else []
  }

  function Dotted(tokens: seq<string>): seq<string> {
    DottedTo(tokens, |tokens|)
  }

  /** The filters of the first `n` tokens. */
  function RebuildTo(tokens: seq<string>, n: nat): Content
    requires n <= |tokens|
  {
    if n == 0 then []
    else
      match Partition(tokens[n - 1], '.')
      case None => RebuildTo(tokens, n - 1)
      case Some(kv) => Insert(RebuildTo(tokens, n - 1), kv.0, kv.1)
  }

  function Rebuild(tokens: seq<string>): Content {
    RebuildTo(tokens, |tokens|)
  }

  lemma {:induction false} InsertTokens(c: Content, key: string, value: string)
    ensures multiset(FlattenContent(Insert(c, key, value)))
            == multiset(FlattenContent(c)) + multiset{key + ['.'] + value}
  {
    var after := Insert(c, key, value);
    if c == [] {
      assert Tokens(key, [value]) == [key + ['.'] + value];
      assert after[1..] == [];
      assert FlattenContent(after) == [key + ['.'] + value];
    } else if c[0].key == key {
      assert after[1..] == c[1..];
      assert Tokens(key, c[0].values + [value]) == Tokens(key, c[0].values) + [key + ['.'] + value];
    } else {
      InsertTokens(c[1..], key, value);
      assert after[1..] == Insert(c[1..], key, value);
    }
  }

  lemma TokenKept(before: Content, kept: seq<string>, token: string)
    requires multiset(FlattenContent(before)) == multiset(kept) && Partition(token, '.').Some?
    ensures var kv := Partition(token, '.').value;
            multiset(FlattenContent(Insert(before, kv.0, kv.1))) == multiset(kept + [token])
  {
    var kv := Partition(token, '.').value;
    PartitionRebuilds(token, '.');
    InsertTokens(before, kv.0, kv.1);
  }

  lemma {:induction false} RebuildKeepsTokens(tokens: seq<string>, n: nat)
    requires n <= |tokens|
    ensures multiset(FlattenContent(RebuildTo(tokens, n))) == multiset(DottedTo(tokens, n))
    decreases n
  {
    if n > 0 {
      RebuildKeepsTokens(tokens, n - 1);
      if Partition(tokens[n - 1], '.').Some? {
        TokenKept(RebuildTo(tokens, n - 1), DottedTo(tokens, n - 1), tokens[n - 1]);
      }
    }
  }

  lemma {:induction false} DottedMembers(tokens: seq<string>, n: nat, t: string)
    requires n <= |tokens|
    ensures t in DottedTo(tokens, n) <==> t in tokens[..n] && '.' in t
    decreases n
  {
    if n > 0 {
      DottedMembers(tokens, n - 1, t);
      PartitionRebuilds(tokens[n - 1], '.');
      assert tokens[..n] == tokens[..n - 1] + [tokens[n - 1]];
    }
  }

  lemma {:induction false} DottedAll(tokens: seq<string>, n: nat)
    requires n <= |tokens| && forall i :: 0 <= i < n ==> '.' in tokens[i]
    ensures DottedTo(tokens, n) == tokens[..n]
    decreases n
  {
    if n > 0 {
      DottedAll(tokens, n - 1);
      PartitionRebuilds(tokens[n - 1], '.');
    }
  }

  /** A rebuilt token came from a dotted token of the field. */
  lemma SentToken(tokens: seq<string>, t: string)
    requires t in FlattenContent(Rebuild(tokens))
    ensures t in tokens && '.' in t
  {
    RebuildKeepsTokens(tokens, |tokens|);
    assert t in multiset(FlattenContent(Rebuild(tokens)));
    assert t in DottedTo(tokens, |tokens|);
    DottedMembers(tokens, |tokens|, t);
  }

  /** Comma-joined dotted tokens come apart again. */
  lemma DottedOfJoin(sent: seq<string>)
    requires forall i :: 0 <= i < |sent| ==> ',' !in sent[i] && '.' in sent[i]
    ensures Dotted(Split(Join(sent, ','), ',')) == sent
  {
    if sent == [] {
      var parts := Split("", ',');
      assert parts == [""];
      assert DottedTo(parts, 0) == [];
      PartitionRebuilds("", '.');
    } else {
      SplitJoin(sent, ',');
      DottedAll(sent, |sent|);
    }
  }

  /** Serialising the rebuilt filters gives the same dotted tokens, as a multiset, as the stored field. */
  lemma ContentRoundTrip(content: string)
    ensures multiset(Dotted(Split(Join(FlattenContent(Rebuild(Split(content, ','))), ','), ',')))
            == multiset(Dotted(Split(content, ',')))
  {
    var stored := Split(content, ',');
    var sent := FlattenContent(Rebuild(stored));
    forall i | 0 <= i < |sent| ensures ',' !in sent[i] && '.' in sent[i] {
      SentToken(stored, sent[i]);
    }
    DottedOfJoin(sent);
    RebuildKeepsTokens(stored, |stored|);
  }

  /* The portable policy */

  datatype Policy = Policy(
    description: string,
    enabled: string,
    prio: string,
    newAction: string,
    action: seq<string>,
    rulesets: seq<string>,
    content: Content)

  /** The name may be sent and is enabled on the device. */
  predicate Enabled(name: string, byName: map<string, Uuid>) {
    PlainName(name) && name in byName
  }

  /** The first `n` file names to uuids, in order; None when one is not acceptable or not enabled. */
  function ResolveTo(names: seq<string>, n: nat, byName: map<string, Uuid>): Option<seq<Uuid>>
    requires n <= |names|
  {
    if n == 0 then Some([])
    else
      match ResolveTo(names, n - 1, byName)
      case None => None
      case Some(front) => if Enabled(names[n - 1], byName) then Some(front + [byName[names[n - 1]]]) else None
  }

  function ResolveNames(names: seq<string>, byName: map<string, Uuid>): Option<seq<Uuid>> {
    ResolveTo(names, |names|, byName)
  }

  /** The body the client sends; None stands for an ApiError about a ruleset. */
  function Serialize(p: Policy, byName: map<string, Uuid>): Option<Stored> {
    match ResolveNames(p.rulesets, byName)
    case None => None
    case Some(uuids) =>
      Some(Stored(p.description, Some(p.enabled), Some(p.prio), Some(p.newAction), Some(Join(p.action, ',')),
                  Some(Join(uuids, ',')), Some(Join(FlattenContent(p.content), ','))))
  }

  /* The inverse body */

  /** The first `n` file uuids to names, in order; None when the snapshot's file table lacks one. */
  function FileNamesTo(uuids: seq<Uuid>, n: nat, files: map<Uuid, string>): Option<seq<string>>
    requires n <= |uuids|
  {
    if n == 0 then Some([])
    else
      match FileNamesTo(uuids, n - 1, files)
      case None => None
      case Some(front) => if uuids[n - 1] in files then Some(front + [files[uuids[n - 1]]]) else None
  }

  function FileNames(uuids: seq<Uuid>, files: map<Uuid, string>): Option<seq<string>> {
    FileNamesTo(uuids, |uuids|, files)
  }

  function Deserialize(prior: Stored, files: map<Uuid, string>): Option<Policy> {
    match FileNames(Parts(Or(prior.rulesets, "")), files)
    case None => None
    case Some(rulesets) =>
      Some(Policy(prior.description, Or(prior.enabled, "1"), Or(prior.prio, "0"), Or(prior.newAction, "alert"),
                  Parts(Or(prior.action, "")), rulesets, Rebuild(Split(Or(prior.content, ""), ','))))
  }

  /** Names of a list and of its extension by one uuid. */
  lemma {:induction false} NamesOfPart(kept: seq<Uuid>, u: Uuid, n: nat, files: map<Uuid, string>)
    requires n <= |kept|
    ensures FileNamesTo(kept + [u], n, files) == FileNamesTo(kept, n, files)
    decreases n
  {
    if n > 0 {
      NamesOfPart(kept, u, n - 1, files);
    }
  }

  lemma NameNext(kept: seq<Uuid>, u: Uuid, files: map<Uuid, string>)
    requires FileNames(kept, files).Some? && u in files
    ensures FileNames(kept + [u], files) == Some(FileNames(kept, files).value + [files[u]])
  {
    NamesOfPart(kept, u, |kept|, files);
  }

  /** The ruleset loop of the inverse builder: empty parts are skipped, an unknown uuid refuses. */
  method NameRulesets(uuids: seq<Uuid>, files: map<Uuid, string>) returns (names: Option<seq<string>>)
    ensures names == FileNames(NonEmpty(uuids), files)
  {
    var out: seq<string> := [];
    ghost var kept: seq<Uuid> := [];
    for i := 0 to |uuids|
      invariant kept == NonEmptyTo(uuids, i)
      invariant FileNames(kept, files) == Some(out)
    {
      if uuids[i] == "" {
        continue;
      }
      if uuids[i] !in files {
        MissingFile(uuids, i, files);
        return None;
      }
      NameNext(kept, uuids[i], files);
      out := out + [files[uuids[i]]];
      kept := kept + [uuids[i]];
    }
    names := Some(out);
  }

  /** The content loop of the inverse builder. */
  method GroupTokens(tokens: seq<string>) returns (content: Content)
    ensures content == Rebuild(tokens)
  {
    content := [];
    for i := 0 to |tokens|
      invariant content == RebuildTo(tokens, i)
    {
      match Partition(tokens[i], '.') {
        case None =>
        case Some(kv) => content := Insert(content, kv.0, kv.1);
      }
    }
  }

  /** The body of the inverse. None stands for NoInverseError. */
  method RebuildPolicy(prior: Stored, files: map<Uuid, string>) returns (body: Option<Policy>)
    ensures body == Deserialize(prior, files)
  {
    var rulesets := NameRulesets(Split(Or(prior.rulesets, ""), ','), files);
    if rulesets.None? {
      return None;
    }
    var content := GroupTokens(Split(Or(prior.content, ""), ','));
    body := Some(Policy(prior.description, Or(prior.enabled, "1"), Or(prior.prio, "0"),
                        Or(prior.newAction, "alert"), Parts(Or(prior.action, "")), rulesets.value, content));
  }

  lemma {:induction false} NamesNeedFiles(uuids: seq<Uuid>, n: nat, files: map<Uuid, string>, i: nat)
    requires i < n <= |uuids| && FileNamesTo(uuids, n, files).Some?
    ensures uuids[i] in files
    decreases n
  {
    if i < n - 1 {
      NamesNeedFiles(uuids, n - 1, files, i);
    }
  }

  lemma {:induction false} NonEmptyMembers(parts: seq<string>, n: nat, p: string)
    requires n <= |parts|
    ensures p in NonEmptyTo(parts, n) <==> p in parts[..n] && p != ""
    decreases n
  {
    if n > 0 {
      NonEmptyMembers(parts, n - 1, p);
      assert parts[..n] == parts[..n - 1] + [parts[n - 1]];
    }
  }

  lemma MissingFile(uuids: seq<Uuid>, i: nat, files: map<Uuid, string>)
    requires i < |uuids| && uuids[i] != "" && uuids[i] !in files
    ensures FileNames(NonEmpty(uuids), files).None?
  {
    var kept := NonEmpty(uuids);
    NonEmptyMembers(uuids, |uuids|, uuids[i]);
    assert uuids[i] in kept;
    if FileNames(kept, files).Some? {
      var k :| 0 <= k < |kept| && kept[k] == uuids[i];
      NamesNeedFiles(kept, |kept|, files, k);
    }
  }

  lemma {:induction false} FilesGiveNames(uuids: seq<Uuid>, n: nat, files: map<Uuid, string>)
    requires n <= |uuids| && forall i :: 0 <= i < n ==> uuids[i] in files
    ensures FileNamesTo(uuids, n, files).Some? && |FileNamesTo(uuids, n, files).value| == n
    ensures forall i :: 0 <= i < n ==> FileNamesTo(uuids, n, files).value[i] == files[uuids[i]]
    decreases n
  {
    if n > 0 {
      FilesGiveNames(uuids, n - 1, files);
    }
  }

  /** The revert refuses exactly when a referenced ruleset is not in the snapshot's file table;
      otherwise every ruleset is named, in order. */
  lemma RulesetsResolved(uuids: seq<Uuid>, files: map<Uuid, string>)
    ensures FileNames(uuids, files).Some? <==> forall u :: u in uuids ==> u in files
    ensures FileNames(uuids, files).Some? ==>
              |FileNames(uuids, files).value| == |uuids|
              && forall i :: 0 <= i < |uuids| ==> uuids[i] in files && FileNames(uuids, files).value[i] == files[uuids[i]]
  {
    if FileNames(uuids, files).Some? {
      forall i | 0 <= i < |uuids| ensures uuids[i] in files {
        NamesNeedFiles(uuids, |uuids|, files, i);
      }
    }
    if forall u :: u in uuids ==> u in files {
      FilesGiveNames(uuids, |uuids|, files);
    }
  }

  /** The ruleset is in the snapshot's file table, and its name is acceptable and leads back to it on the
      device. */
  ghost predicate Returns(u: Uuid, files: map<Uuid, string>, byName: map<string, Uuid>) {
    u in files && Enabled(files[u], byName) && byName[files[u]] == u
  }

  /** Looking the names up again gives the uuids they came from. */
  lemma {:induction false} NamesResolveBack(uuids: seq<Uuid>, names: seq<string>, n: nat, files: map<Uuid, string>,
                                            byName: map<string, Uuid>)
    requires n <= |uuids| == |names|
    requires forall i :: 0 <= i < n ==> Returns(uuids[i], files, byName) && names[i] == files[uuids[i]]
    ensures ResolveTo(names, n, byName) == Some(uuids[..n])
    decreases n
  {
    if n > 0 {
      NamesResolveBack(uuids, names, n - 1, files, byName);
      assert uuids[..n] == uuids[..n - 1] + [uuids[n - 1]];
    }
  }

  lemma {:induction false} NonEmptyStays(parts: seq<string>, n: nat)
    requires n <= |parts| && forall i :: 0 <= i < n ==> parts[i] != ""
    ensures NonEmptyTo(parts, n) == parts[..n]
    decreases n
  {
    if n > 0 {
      NonEmptyStays(parts, n - 1);
    }
  }

  /** Comma-joined non-empty parts come apart again. */
  lemma PartsOfJoin(parts: seq<string>)
    requires forall i :: 0 <= i < |parts| ==> parts[i] != "" && ',' !in parts[i]
    ensures Parts(Join(parts, ',')) == parts
  {
    if parts == [] {
      assert Split("", ',') == [""];
    } else {
      SplitJoin(parts, ',');
      NonEmptyStays(parts, |parts|);
    }
  }

  lemma PartsRoundTrip(field: string)
    ensures Parts(Join(Parts(field), ',')) == Parts(field)
  {
    var parts := Parts(field);
    forall i | 0 <= i < |parts| ensures parts[i] != "" && ',' !in parts[i] {
      assert parts[i] in parts;
      NonEmptyMembers(Split(field, ','), |Split(field, ',')|, parts[i]);
    }
    PartsOfJoin(parts);
  }

  /** What a stored policy means: its settings, its actions and rulesets in order, and its filters as a
      multiset. */
  datatype Meaning = Meaning(
    description: string,
    enabled: string,
    prio: string,
    newAction: string,
    action: seq<string>,
    rulesets: seq<string>,
    filters: multiset<string>)

  ghost function MeaningOf(s: Stored): Meaning {
    Meaning(s.description, Or(s.enabled, "1"), Or(s.prio, "0"), Or(s.newAction, "alert"), Parts(Or(s.action, "")),
            Parts(Or(s.rulesets, "")), multiset(Dotted(Split(Or(s.content, ""), ','))))
  }

  ghost predicate AllFilesKnown(prior: Stored, files: map<Uuid, string>) {
    forall u :: u in Parts(Or(prior.rulesets, "")) ==> u in files
  }

  /** The client takes no uuid that could split a comma-joined field. */
  ghost predicate SafeIds(byName: map<string, Uuid>) {
    forall n :: n in byName ==> byName[n] != "" && ',' !in byName[n]
  }

  /** The name of every ruleset of the policy leads back to it. */
  ghost predicate LeadsBack(prior: Stored, files: map<Uuid, string>, byName: map<string, Uuid>) {
    forall u :: u in Parts(Or(prior.rulesets, "")) ==> Returns(u, files, byName)
  }

  /** Rebuilding the policy and sending it again is possible and stores a policy of the same meaning. */
  ghost predicate Rebuilds(prior: Stored, files: map<Uuid, string>, byName: map<string, Uuid>) {
    && Deserialize(prior, files).Some?
    && Serialize(Deserialize(prior, files).value, byName).Some?
    && MeaningOf(Serialize(Deserialize(prior, files).value, byName).value) == MeaningOf(prior)
  }

  lemma {:induction false} ResolvedAt(names: seq<string>, n: nat, byName: map<string, Uuid>)
    requires n <= |names| && ResolveTo(names, n, byName).Some?
    ensures |ResolveTo(names, n, byName).value| == n
    ensures forall i :: 0 <= i < n ==>
              Enabled(names[i], byName) && ResolveTo(names, n, byName).value[i] == byName[names[i]]
    decreases n
  {
    if n > 0 {
      ResolvedAt(names, n - 1, byName);
    }
  }

  /** What is sent for the rulesets when the policy is rebuilt. */
  lemma SentRulesets(uuids: seq<Uuid>, files: map<Uuid, string>, byName: map<string, Uuid>)
    requires SafeIds(byName) && FileNames(uuids, files).Some?
    requires ResolveNames(FileNames(uuids, files).value, byName).Some?
    ensures var sent := ResolveNames(FileNames(uuids, files).value, byName).value;
            && Parts(Join(sent, ',')) == sent
            && (sent == uuids ==> forall u :: u in uuids ==> Returns(u, files, byName))
  {
    var names := FileNames(uuids, files).value;
    var sent := ResolveNames(names, byName).value;
    RulesetsResolved(uuids, files);
    ResolvedAt(names, |names|, byName);
    PartsOfJoin(sent);
    if sent == uuids {
      forall u | u in uuids ensures Returns(u, files, byName) {
        var i :| 0 <= i < |uuids| && uuids[i] == u;
      }
    }
  }

  lemma RebuiltLeadsBack(prior: Stored, files: map<Uuid, string>, byName: map<string, Uuid>)
    requires SafeIds(byName) && Rebuilds(prior, files, byName)
    ensures LeadsBack(prior, files, byName)
  {
    var uuids := Parts(Or(prior.rulesets, ""));
    SentRulesets(uuids, files, byName);
    var stored := Serialize(Deserialize(prior, files).value, byName).value;
    assert MeaningOf(stored).rulesets == MeaningOf(prior).rulesets;
  }

  lemma LeadingBackRebuilds(prior: Stored, files: map<Uuid, string>, byName: map<string, Uuid>)
    requires LeadsBack(prior, files, byName)
    ensures Rebuilds(prior, files, byName)
  {
    var uuids := Parts(Or(prior.rulesets, ""));
    RulesetsResolved(uuids, files);
    NamesResolveBack(uuids, FileNames(uuids, files).value, |uuids|, files, byName);
    assert uuids[..|uuids|] == uuids;
    PartsRoundTrip(Or(prior.rulesets, ""));
    PartsRoundTrip(Or(prior.action, ""));
    ContentRoundTrip(Or(prior.content, ""));
  }

  /** The revert is refused exactly when a ruleset is missing from the snapshot's file table; rebuilding
      the policy and sending it again stores a policy of the same meaning exactly when every ruleset's
      name is also acceptable and leads back to it on the device. */
  lemma PolicyRoundTrip(prior: Stored, files: map<Uuid, string>, byName: map<string, Uuid>)
    requires SafeIds(byName)
    ensures Deserialize(prior, files).Some? <==> AllFilesKnown(prior, files)
    ensures Rebuilds(prior, files, byName) <==> LeadsBack(prior, files, byName)
  {
    RulesetsResolved(Parts(Or(prior.rulesets, "")), files);
    if LeadsBack(prior, files, byName) {
      LeadingBackRebuilds(prior, files, byName);
    }
    if Rebuilds(prior, files, byName) {
      RebuiltLeadsBack(prior, files, byName);
    }
  }

  predicate CommaFree(parts: seq<string>) {
    forall i :: 0 <= i < |parts| ==> parts[i] != "" && ',' !in parts[i]
  }

  /** What is stored for a policy that can be sent means the policy: its settings, its actions, the uuids of its
      rulesets in order, and a token for each of its filters. */
  lemma SerializedMeaning(p: Policy, byName: map<string, Uuid>)
    requires SafeIds(byName) && CommaFree(p.action) && CommaFree(FlattenContent(p.content))
    ensures Serialize(p, byName).Some? <==> forall i :: 0 <= i < |p.rulesets| ==> Enabled(p.rulesets[i], byName)
    ensures Serialize(p, byName).Some? ==>
              var m := MeaningOf(Serialize(p, byName).value);
              && m.description == p.description && m.enabled == p.enabled && m.prio == p.prio && m.newAction == p.newAction
              && m.action == p.action && m.filters == multiset(FlattenContent(p.content))
              && |m.rulesets| == |p.rulesets|
              && forall i :: 0 <= i < |p.rulesets| ==> Enabled(p.rulesets[i], byName) && m.rulesets[i] == byName[p.rulesets[i]]
  {
    ResolvesExactly(p.rulesets, |p.rulesets|, byName);
    if Serialize(p, byName).Some? {
      ResolvedAt(p.rulesets, |p.rulesets|, byName);
      PartsOfJoin(ResolveNames(p.rulesets, byName).value);
      PartsOfJoin(p.action);
      TokensDotted(p.content);
      DottedOfJoin(FlattenContent(p.content));
    }
  }

  lemma {:induction false} TokensDotted(c: Content)
    ensures forall i :: 0 <= i < |FlattenContent(c)| ==> '.' in FlattenContent(c)[i]
  {
    if c != [] {
      TokensDotted(c[1..]);
      forall i | 0 <= i < |c[0].values| ensures '.' in Tokens(c[0].key, c[0].values)[i] {
        assert (c[0].key + ['.'] + c[0].values[i])[|c[0].key|] == '.';
      }
    }
  }

  lemma {:induction false} ResolvesExactly(names: seq<string>, n: nat, byName: map<string, Uuid>)
    requires n <= |names|
    ensures ResolveTo(names, n, byName).Some? <==> forall i :: 0 <= i < n ==> Enabled(names[i], byName)
    decreases n
  {
    if n > 0 {
      ResolvesExactly(names, n - 1, byName);
    }
  }

  /* Reverting a policy change */

  datatype Change = Delete(description: string) | Upsert(policy: Policy)

  function DescriptionOf(change: Change): string {
    if change.Delete? then change.description else change.policy.description
  }

  /** The edit a change makes on the device; None when a ruleset cannot be resolved. */
  function EditOf(change: Change, byName: map<string, Uuid>): (e: Option<Edit>)
    ensures e.Some? ==> Subject(e.value) == DescriptionOf(change) && (e.value.Put? <==> change.Upsert?)
  {
    match change
    case Delete(description) => Some(Drop(description))
    case Upsert(policy) =>
      match Serialize(policy, byName)
      case None => None
      case Some(stored) => Some(Put(stored))
  }

  /** None stands for an ApiError. */
  function ApplyPolicy(ps: Policies, change: Change, byName: map<string, Uuid>, id: Uuid): Option<Policies> {
    match EditOf(change, byName)
    case None => None
    case Some(e) => ApplyEdit(ps, e, id)
  }

  /** The inverse for the policy called `description`; `isAdd` says that the change was recorded as an
      "add". */
  ghost function InvertNamed(isAdd: bool, description: string, snapshot: Policies, files: map<Uuid, string>)
    : Option<Change>
  {
    if isAdd || Found(snapshot, description) == {} then Some(Delete(description))
    else
      var u :| u in Found(snapshot, description);
      match Deserialize(snapshot[u], files)
      case None => None
      case Some(policy) => Some(Upsert(policy))
  }

  /** What a configuration snapshot shows of the policies, with the names of its ruleset files. */
  datatype Snapshot = Snapshot(policies: Policies, files: map<Uuid, string>)

  /** The recorded target, if any, takes the place of the payload's description. An "add" needs no
      snapshot. */
  ghost function InvertPolicy(isAdd: bool, target: string, change: Change, snapshot: Option<Snapshot>): Option<Change> {
    var description := if target != "" then target else DescriptionOf(change);
    if isAdd then Some(Delete(description))
    else
      match snapshot
      case None => None
      case Some(s) => InvertNamed(false, description, s.policies, s.files)
  }

  /** Policy `u` of the snapshot is called `name`. */
  ghost predicate Called(s: Snapshot, u: Uuid, name: string) {
    u in s.policies && s.policies[u].description == name
  }

  /** A revert that is no "add" is refused without a snapshot, or when a ruleset of the policy is missing
      from the snapshot's file table. Otherwise the policy named by the target, or else by the payload, is
      deleted exactly if the change was an "add" or the snapshot has no such policy, and rebuilt if it has. */
  lemma InverseMeaning(isAdd: bool, target: string, change: Change, snapshot: Option<Snapshot>)
    ensures var named := if target == "" then DescriptionOf(change) else target;
            var inverse := InvertPolicy(isAdd, target, change, snapshot);
            if isAdd then inverse == Some(Delete(named))
            else if snapshot.None? then inverse == None
            else InvertedFrom(named, snapshot.value, inverse)
  {
    if !isAdd && snapshot.Some? {
      InverseOfNamed(if target == "" then DescriptionOf(change) else target, snapshot.value);
    }
  }

  ghost predicate InvertedFrom(named: string, s: Snapshot, inverse: Option<Change>) {
    match inverse
    case None => exists u :: Called(s, u, named) && !AllFilesKnown(s.policies[u], s.files)
    case Some(Delete(d)) => d == named && !exists u :: Called(s, u, named)
    case Some(Upsert(policy)) =>
      && policy.description == named
      && exists u :: Called(s, u, named) && Deserialize(s.policies[u], s.files) == Some(policy)
  }

  lemma InverseOfNamed(named: string, s: Snapshot)
    ensures InvertedFrom(named, s, InvertNamed(false, named, s.policies, s.files))
  {
    var found := Found(s.policies, named);
    forall u ensures u in found <==> Called(s, u, named) {
    }
    forall u | u in found && Deserialize(s.policies[u], s.files).None?
      ensures Called(s, u, named) && !AllFilesKnown(s.policies[u], s.files)
    {
      RulesetsResolved(Parts(Or(s.policies[u].rulesets, "")), s.files);
    }
  }

  ghost function Meant(): Stored -> Meaning {
    (s: Stored) => MeaningOf(s)
  }

  lemma MeantTellsApart()
    ensures TellsApart(Meant())
  {
    forall a, b | Meant()(a) == Meant()(b) ensures a.description == b.description {
      assert MeaningOf(a).description == MeaningOf(b).description;
    }
  }

  /** The inverse could be built, is accepted, and gives back the policies of before the change, in
      meaning. */
  ghost predicate RevertWorks(before: Policies, inverse: Option<Change>, after: Policies, byName: map<string, Uuid>, jd: Uuid) {
    && inverse.Some? && ApplyPolicy(after, inverse.value, byName, jd).Some?
    && Same(before, ApplyPolicy(after, inverse.value, byName, jd).value, Meant())
  }

  lemma InverseOfFound(before: Policies, description: string, u: Uuid, files: map<Uuid, string>)
    requires Found(before, description) == {u}
    ensures u in before && before[u].description == description
    ensures InvertNamed(false, description, before, files)
            == match Deserialize(before[u], files) case None => None case Some(p) => Some(Upsert(p))
  {
    assert u in Found(before, description);
  }

  /** What the inverse puts for policy `u`: nothing, or what the rebuilt policy is stored as. */
  ghost function Rebuilt(prior: Stored, files: map<Uuid, string>, byName: map<string, Uuid>): (r: Option<Stored>)
    ensures r.Some? ==> r.value.description == prior.description
  {
    match Deserialize(prior, files)
    case None => None
    case Some(policy) => Serialize(policy, byName)
  }

  lemma RebuiltMeans(prior: Stored, files: map<Uuid, string>, byName: map<string, Uuid>)
    requires SafeIds(byName)
    ensures LeadsBack(prior, files, byName)
       <==> Rebuilt(prior, files, byName).Some? && Meant()(Rebuilt(prior, files, byName).value) == Meant()(prior)
  {
    PolicyRoundTrip(prior, files, byName);
  }

  /** The revert of a change about a policy that is there, by what the inverse puts. */
  lemma RevertPuts(before: Policies, description: string, u: Uuid, after: Policies, files: map<Uuid, string>,
                   byName: map<string, Uuid>, jd: Uuid)
    requires Found(before, description) == {u}
    ensures u in before && before[u].description == description
    ensures var r := Rebuilt(before[u], files, byName);
            RevertWorks(before, InvertNamed(false, description, before, files), after, byName, jd)
            <==> r.Some? && ApplyEdit(after, Put(r.value), jd).Some?
                 && Same(before, ApplyEdit(after, Put(r.value), jd).value, Meant())
  {
    InverseOfFound(before, description, u, files);
  }

  lemma RevertDrops(before: Policies, isAdd: bool, description: string, after: Policies, files: map<Uuid, string>,
                    byName: map<string, Uuid>, jd: Uuid)
    requires isAdd || Found(before, description) == {}
    ensures var final := ApplyEdit(after, Drop(description), jd);
            RevertWorks(before, InvertNamed(isAdd, description, before, files), after, byName, jd)
            <==> final.Some? && Same(before, final.value, Meant())
  {
  }

  /** Case 1: the target agrees with the payload. */
  lemma AgreeingRevert(before: Policies, e: Edit, isAdd: bool, byName: map<string, Uuid>,
                       id: Uuid, after: Policies, files: map<Uuid, string>, jd: Uuid)
    requires ApplyEdit(before, e, id) == Some(after)
    requires isAdd ==> e.Put?
    requires SafeIds(byName) && id !in before && jd !in before
    ensures RevertWorks(before, InvertNamed(isAdd, Subject(e), before, files), after, byName, jd)
            <==> forall u :: u in Found(before, Subject(e)) ==> !isAdd && LeadsBack(before[u], files, byName)
  {
    if isAdd || Found(before, Subject(e)) == {} {
      RevertDrops(before, isAdd, Subject(e), after, files, byName, jd);
      DropOwn(before, e, id, after, jd, Meant());
    } else {
      var u := OneFound(Found(before, Subject(e)));
      assert u in Found(before, Subject(e));
      RestoringRevert(before, e, byName, id, after, files, jd, u);
    }
  }

  lemma RestoringRevert(before: Policies, e: Edit, byName: map<string, Uuid>, id: Uuid, after: Policies,
                        files: map<Uuid, string>, jd: Uuid, u: Uuid)
    requires ApplyEdit(before, e, id) == Some(after) && SafeIds(byName) && id !in before && jd !in before
    requires Found(before, Subject(e)) == {u} && u in before
    ensures RevertWorks(before, InvertNamed(false, Subject(e), before, files), after, byName, jd)
            <==> LeadsBack(before[u], files, byName)
  {
    RevertPuts(before, Subject(e), u, after, files, byName, jd);
    RebuiltMeans(before[u], files, byName);
    if Rebuilt(before[u], files, byName).Some? {
      PutBack(before, e, id, after, u, Rebuilt(before[u], files, byName).value, jd, Meant());
    }
  }

  /** Case 2: the target names another policy; the inverse works on that one. */
  lemma StrayRevert(before: Policies, e: Edit, isAdd: bool, target: string, byName: map<string, Uuid>,
                    id: Uuid, after: Policies, files: map<Uuid, string>, jd: Uuid)
    requires ApplyEdit(before, e, id) == Some(after)
    requires isAdd ==> e.Put?
    requires SafeIds(byName) && id !in before && target != "" && target != Subject(e)
    ensures var named := Found(before, target);
            RevertWorks(before, InvertNamed(isAdd, target, before, files), after, byName, jd)
            <==> ChangesNothing(before, e, Meant()) && |named| <= 1 && (isAdd ==> named == {})
                 && forall v :: v in named ==> LeadsBack(before[v], files, byName)
  {
    var named := Found(before, target);
    if named == {} {
      StrayNone(before, e, isAdd, target, byName, id, after, files, jd);
    } else if |named| > 1 {
      OthersUntouched(before, e, id, after, target);
      StrayMany(before, isAdd, target, byName, after, files, jd);
    } else {
      var v := OneFound(named);
      assert v in named;
      StrayOne(before, e, isAdd, target, byName, id, after, files, jd, v);
    }
  }

  lemma StrayOne(before: Policies, e: Edit, isAdd: bool, target: string, byName: map<string, Uuid>,
                 id: Uuid, after: Policies, files: map<Uuid, string>, jd: Uuid, v: Uuid)
    requires ApplyEdit(before, e, id) == Some(after)
    requires isAdd ==> e.Put?
    requires SafeIds(byName) && id !in before && target != "" && target != Subject(e)
    requires Found(before, target) == {v} && v in before
    ensures RevertWorks(before, InvertNamed(isAdd, target, before, files), after, byName, jd)
            <==> ChangesNothing(before, e, Meant()) && !isAdd && LeadsBack(before[v], files, byName)
  {
    if isAdd {
      StrayDrop(before, e, target, byName, id, after, files, jd, v);
    } else {
      StrayPut(before, e, target, byName, id, after, files, jd, v);
    }
  }

  lemma StrayNone(before: Policies, e: Edit, isAdd: bool, target: string, byName: map<string, Uuid>,
                  id: Uuid, after: Policies, files: map<Uuid, string>, jd: Uuid)
    requires ApplyEdit(before, e, id) == Some(after) && id !in before
    requires target != "" && target != Subject(e) && Found(before, target) == {}
    ensures RevertWorks(before, InvertNamed(isAdd, target, before, files), after, byName, jd)
            <==> ChangesNothing(before, e, Meant())
  {
    OthersUntouched(before, e, id, after, target);
    RevertDrops(before, isAdd, target, after, files, byName, jd);
    DropNone(after, target, jd);
    AppliedSame(before, e, id, after, Meant());
  }

  lemma StrayDrop(before: Policies, e: Edit, target: string, byName: map<string, Uuid>,
                  id: Uuid, after: Policies, files: map<Uuid, string>, jd: Uuid, v: Uuid)
    requires ApplyEdit(before, e, id) == Some(after) && e.Put? && id !in before
    requires target != "" && target != Subject(e) && Found(before, target) == {v}
    ensures !RevertWorks(before, InvertNamed(true, target, before, files), after, byName, jd)
  {
    RevertDrops(before, true, target, after, files, byName, jd);
    MeantTellsApart();
    DropOther(before, e, id, after, target, v, jd, Meant());
  }

  lemma StrayPut(before: Policies, e: Edit, target: string, byName: map<string, Uuid>,
                 id: Uuid, after: Policies, files: map<Uuid, string>, jd: Uuid, v: Uuid)
    requires ApplyEdit(before, e, id) == Some(after) && SafeIds(byName) && id !in before
    requires target != "" && target != Subject(e) && Found(before, target) == {v} && v in before
    ensures RevertWorks(before, InvertNamed(false, target, before, files), after, byName, jd)
            <==> ChangesNothing(before, e, Meant()) && LeadsBack(before[v], files, byName)
  {
    RevertPuts(before, target, v, after, files, byName, jd);
    RebuiltMeans(before[v], files, byName);
    if Rebuilt(before[v], files, byName).Some? {
      MeantTellsApart();
      PutOther(before, e, id, after, v, Rebuilt(before[v], files, byName).value, jd, Meant());
    }
  }

  /** A target that matches several policies is refused. */
  lemma StrayMany(before: Policies, isAdd: bool, target: string, byName: map<string, Uuid>, after: Policies,
                  files: map<Uuid, string>, jd: Uuid)
    requires Found(after, target) == Found(before, target) && |Found(before, target)| > 1
    ensures !RevertWorks(before, InvertNamed(isAdd, target, before, files), after, byName, jd)
  {
    var inverse := InvertNamed(isAdd, target, before, files);
    InverseNames(before, isAdd, target, files);
    if inverse.Some? && EditOf(inverse.value, byName).Some? {
      assert ApplyEdit(after, EditOf(inverse.value, byName).value, jd).None?;
    }
  }

  /** The inverse is about the policy it was asked for. */
  lemma InverseNames(before: Policies, isAdd: bool, target: string, files: map<Uuid, string>)
    ensures var inverse := InvertNamed(isAdd, target, before, files);
            inverse.Some? ==> DescriptionOf(inverse.value) == target
  {
    if !isAdd {
      InverseOfNamed(target, Snapshot(before, files));
    }
  }

  /** An applied policy change is undone by its revert exactly when it was an "add" or a snapshot was stored,
      and
      - its target agrees with its payload, it is not an "add" over an existing policy, and every ruleset
        of the policy to restore has an acceptable name in the snapshot's file table that leads back to it; or
      - its target names another policy, the change changed nothing, and the target matches at most one
        policy, none if it was an "add", whose rulesets lead back. */
  lemma PolicyRevertExactlyWhen(before: Policies, stored: bool, change: Change, isAdd: bool, target: string,
                                byName: map<string, Uuid>, id: Uuid, after: Policies, files: map<Uuid, string>, jd: Uuid)
    requires ApplyPolicy(before, change, byName, id) == Some(after)
    requires isAdd ==> change.Upsert?
    requires SafeIds(byName) && id !in before && jd !in before
    ensures var own, named := Found(before, DescriptionOf(change)), Found(before, target);
            var snapshot := if stored then Some(Snapshot(before, files)) else None;
            RevertWorks(before, InvertPolicy(isAdd, target, change, snapshot), after, byName, jd)
            <==> (stored || isAdd)
                 && if target == "" || target == DescriptionOf(change) then
                      forall u :: u in own ==> !isAdd && LeadsBack(before[u], files, byName)
                    else
                      && ChangesNothing(before, EditOf(change, byName).value, Meant())
                      && |named| <= 1 && (isAdd ==> named == {})
                      && forall v :: v in named ==> LeadsBack(before[v], files, byName)
  {
    if target == "" || target == DescriptionOf(change) {
      AgreeingRevert(before, EditOf(change, byName).value, isAdd, byName, id, after, files, jd);
    } else {
      StrayRevert(before, EditOf(change, byName).value, isAdd, target, byName, id, after, files, jd);
    }
  }

  /** A policy deleted by its payload's description and recorded with another target stays deleted. */
  lemma StrayTargetFails(u: Uuid, stored: Stored, target: string, byName: map<string, Uuid>, files: map<Uuid, string>,
                         id: Uuid, jd: Uuid)
    requires stored.description != "" && target != "" && target != stored.description
    requires SafeIds(byName) && id != u && jd != u
    ensures var before := map[u := stored];
            var change := Delete(stored.description);
            var after := ApplyPolicy(before, change, byName, id);
            after.Some? && !RevertWorks(before, InvertPolicy(false, target, change, Some(Snapshot(before, files))),
                                        after.value, byName, jd)
  {
    var before := map[u := stored];
    assert Found(before, stored.description) == {u};
    PolicyRevertExactlyWhen(before, true, Delete(stored.description), false, target, byName, id, before - {u}, files, jd);
  }
}
