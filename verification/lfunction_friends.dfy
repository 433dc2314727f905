/** The modular-form friends of an Artin representation or orbit page: for
    every alias of the label, the L-function instance of type `Artin` is
    looked up, and every instance of type `CMF` sharing its L-function hash
    and having the expected number of URL segments becomes a friend link.
    The instance table is an input sequence; a query returns its matching
    records in sequence order. */
module LFunctionFriends {
  import opened Wrappers
  import opened Strings
  import opened Seqs
  import opened LabelGrammar
  import opened LabelResolver

  /** A record of the L-function instance table. */
  datatype Instance = Instance(kind: string, url: string, lhash: string)

  /** A friend link: display name and URL. */
  datatype Friend = Friend(name: string, url: string)

  const ArtinUrlPrefix: string := "ArtinRepresentation/"

  const ModularFormPrefix: string := "Modular form "

  /** The first `Artin` instance whose URL names the label. */
  function ArtinInstance(instances: seq<Instance>, alias: string): (r: Option<Instance>)
    ensures r.Some? ==> r.value in instances && r.value.kind == "Artin" && r.value.url == ArtinUrlPrefix + alias
    ensures r.None? <==> forall inst :: inst in instances ==> !(inst.kind == "Artin" && inst.url == ArtinUrlPrefix + alias)
  {
    if |instances| == 0 then None
    else if instances[0].kind == "Artin" && instances[0].url == ArtinUrlPrefix + alias then Some(instances[0])
    else ArtinInstance(instances[1..], alias)
  }

  /** The last `.`-segment of a label. */
  function LastSegment(s: string): string {
    var p := Split(s, '.');
    p[|p| - 1]
  }

  /** Expected number of `/`-segments of a modular-form URL: 10 when the
      letter `c` occurs in the label's last segment, 8 otherwise. */
  function Arity(alias: string): (n: nat)
    ensures n == 8 || n == 10
  {
    if 'c' in LastSegment(alias) then 10 else 8
  }

  /** The modular-form label of a URL: its segments from the fifth on,
      joined by `.`; empty when there are no more than four. */
  function CmfLabel(url: string): (cmf: string)
    ensures |Split(url, '/')| <= 4 ==> cmf == ""
    ensures '/' !in cmf
  {
    var p := Split(url, '/');
    var tail := if |p| > 4 then p[4..] else [];
    assert forall i :: 0 <= i < |tail| ==> '/' !in tail[i];
    JoinExcludes(tail, '.', '/');
    Join(tail, '.')
  }

  /** The friend link for a modular-form instance: named after the URL's
      modular-form label, and with a URL made to start with `/`. */
  function CmfFriend(inst: Instance): (f: Friend)
    requires |Split(inst.url, '/')| >= 2
    ensures |f.url| > 0 && f.url[0] == '/'
    ensures inst.url[0] == '/' ==> f.url == inst.url
    ensures inst.url[0] != '/' ==> f.url == "/" + inst.url
    ensures f.name == ModularFormPrefix + CmfLabel(inst.url)
  {
    assert |inst.url| > 0;
    var url := if inst.url[0] == '/' then inst.url else "/" + inst.url;
    Friend(ModularFormPrefix + CmfLabel(inst.url), url)
  }

  /** A `CMF` record with the given hash and number of URL segments. */
  predicate IsMatch(inst: Instance, lhash: string, arity: nat) {
    inst.kind == "CMF" && inst.lhash == lhash && |Split(inst.url, '/')| == arity
  }

  /** The instance is a modular form linked to the alias: the alias has an
      `Artin` instance, and this `CMF` instance shares its hash and has the
      expected number of URL segments. */
  predicate Qualifies(instances: seq<Instance>, alias: string, inst: Instance) {
    var a := ArtinInstance(instances, alias);
    a.Some? && IsMatch(inst, a.value.lhash, Arity(alias))
  }

  predicate Increasing(idx: seq<nat>) {
    forall k, l :: 0 <= k < l < |idx| ==> idx[k] < idx[l]
  }

  /** Every index moved one position on. */
  function Shift(idx: seq<nat>): (r: seq<nat>)
    ensures |r| == |idx| && forall k :: 0 <= k < |idx| ==> r[k] == idx[k] + 1
  {
    seq(|idx|, k requires 0 <= k < |idx| => idx[k] + 1)
  }

  /** A shifted index list holds `i` exactly when the original holds `i - 1`. */
  lemma ShiftMembers(idx: seq<nat>)
    ensures forall i: nat :: i in Shift(idx) <==> i >= 1 && i - 1 in idx
  {
    forall i: nat | i >= 1 && i - 1 in idx
      ensures i in Shift(idx)
    {
      var k :| 0 <= k < |idx| && idx[k] == i - 1;
      assert Shift(idx)[k] == i;
    }
  }

  /** The positions of the records matching the hash and arity, each once,
      in increasing order. */
  function MatchingIndices(candidates: seq<Instance>, lhash: string, arity: nat): (idx: seq<nat>)
    ensures Increasing(idx)
    ensures forall k :: 0 <= k < |idx| ==> idx[k] < |candidates|
    ensures forall i :: 0 <= i < |candidates| ==> (i in idx <==> IsMatch(candidates[i], lhash, arity))
  {
    if |candidates| == 0 then []
    else
      var rest := MatchingIndices(candidates[1..], lhash, arity);
      var shifted := Shift(rest);
      ShiftMembers(rest);
      assert forall i :: 1 <= i < |candidates| ==> candidates[1..][i - 1] == candidates[i];
      if IsMatch(candidates[0], lhash, arity) then [0] + shifted else shifted
  }

  /** `f` is the link made from the record at position `i`. */
  predicate LinkOf(f: Friend, candidates: seq<Instance>, i: nat) {
    && i < |candidates|
    && |Split(candidates[i].url, '/')| >= 2
    && f == CmfFriend(candidates[i])
  }

  /** `fs` holds one link per index in `idx`, in order: the k-th link is made
      from the record at position `idx[k]`. */
  predicate LinksAt(fs: seq<Friend>, candidates: seq<Instance>, idx: seq<nat>) {
    && |fs| == |idx|
    && forall k :: 0 <= k < |fs| ==> LinkOf(fs[k], candidates, idx[k])
  }

  /** Putting a record in front of the candidates moves every link's
      position on by one. */
  lemma ShiftLinks(candidates: seq<Instance>, fs: seq<Friend>, idx: seq<nat>)
    requires |candidates| >= 1
    requires LinksAt(fs, candidates[1..], idx)
    ensures LinksAt(fs, candidates, Shift(idx))
  {
    var tail, shifted := candidates[1..], Shift(idx);
    forall k | 0 <= k < |fs|
      ensures LinkOf(fs[k], candidates, shifted[k])
    {
      assert LinkOf(fs[k], tail, idx[k]);
      assert tail[idx[k]] == candidates[shifted[k]];
    }
  }

  /** The link of the first record, put in front, sits at position 0. */
  lemma PrependLink(candidates: seq<Instance>, fs: seq<Friend>, idx: seq<nat>)
    requires |candidates| >= 1 && |Split(candidates[0].url, '/')| >= 2
    requires LinksAt(fs, candidates, idx)
    ensures LinksAt([CmfFriend(candidates[0])] + fs, candidates, [0] + idx)
  {
    var fs', idx' := [CmfFriend(candidates[0])] + fs, [0] + idx;
    assert LinkOf(fs'[0], candidates, idx'[0]);
    forall k | 1 <= k < |fs'|
      ensures LinkOf(fs'[k], candidates, idx'[k])
    {
      assert fs'[k] == fs[k - 1] && idx'[k] == idx[k - 1];
    }
  }

  /** The friends for one hash and arity: one link per matching record, in
      the order of the records. */
  function MatchingFriends(candidates: seq<Instance>, lhash: string, arity: nat): (fs: seq<Friend>)
    requires arity >= 2
    ensures LinksAt(fs, candidates, MatchingIndices(candidates, lhash, arity))
  {
    if |candidates| == 0 then []
    else
      var inst := candidates[0];
      var rest := MatchingFriends(candidates[1..], lhash, arity);
      ShiftLinks(candidates, rest, MatchingIndices(candidates[1..], lhash, arity));
      if IsMatch(inst, lhash, arity) then
        PrependLink(candidates, rest, Shift(MatchingIndices(candidates[1..], lhash, arity)));
        [CmfFriend(inst)] + rest
      else rest
  }

  /** Every link comes from a matching record, and every matching record gives
      a link; every link URL starts with `/`. */
  lemma MatchingFriendsMembers(candidates: seq<Instance>, lhash: string, arity: nat)
    requires arity >= 2
    ensures var fs := MatchingFriends(candidates, lhash, arity);
            && (forall f :: f in fs ==> |f.url| > 0 && f.url[0] == '/')
            && (forall f :: f in fs ==> exists inst :: inst in candidates && IsMatch(inst, lhash, arity) && f == CmfFriend(inst))
            && (forall inst :: inst in candidates && IsMatch(inst, lhash, arity) ==> CmfFriend(inst) in fs)
  {
    var fs, idx := MatchingFriends(candidates, lhash, arity), MatchingIndices(candidates, lhash, arity);
    forall f | f in fs
      ensures exists inst :: inst in candidates && IsMatch(inst, lhash, arity) && f == CmfFriend(inst)
    {
      var k :| 0 <= k < |fs| && fs[k] == f;
      assert LinkOf(fs[k], candidates, idx[k]);
      assert idx[k] in idx;
      assert candidates[idx[k]] in candidates;
    }
    forall inst | inst in candidates && IsMatch(inst, lhash, arity)
      ensures CmfFriend(inst) in fs
    {
      var i :| 0 <= i < |candidates| && candidates[i] == inst;
      var k :| 0 <= k < |idx| && idx[k] == i;
      assert LinkOf(fs[k], candidates, idx[k]);
    }
  }

  /** The positions of the records that qualify for the alias, each once, in
      increasing order. */
  function QualifyingIndices(instances: seq<Instance>, alias: string): (idx: seq<nat>)
    ensures Increasing(idx)
    ensures forall k :: 0 <= k < |idx| ==> idx[k] < |instances|
    ensures forall i :: 0 <= i < |instances| ==> (i in idx <==> Qualifies(instances, alias, instances[i]))
  {
    match ArtinInstance(instances, alias)
    case None => []
    case Some(a) => MatchingIndices(instances, a.lhash, Arity(alias))
  }

  /** The friends contributed by one alias: one link per qualifying record,
      in the order of the records. */
  function AliasFriends(instances: seq<Instance>, alias: string): (fs: seq<Friend>)
    ensures LinksAt(fs, instances, QualifyingIndices(instances, alias))
  {
    match ArtinInstance(instances, alias)
    case None => []
    case Some(a) => MatchingFriends(instances, a.lhash, Arity(alias))
  }

  /** Every link of an alias starts with `/` and comes from a record
      qualifying for it. */
  lemma AliasFriendsSound(instances: seq<Instance>, alias: string)
    ensures var fs := AliasFriends(instances, alias);
            forall f :: f in fs ==>
              && |f.url| > 0 && f.url[0] == '/'
              && exists inst :: inst in instances && Qualifies(instances, alias, inst) && f == CmfFriend(inst)
  {
    match ArtinInstance(instances, alias)
    case None =>
    case Some(a) => MatchingFriendsMembers(instances, a.lhash, Arity(alias));
  }

  /** Every record qualifying for an alias gives one of its links. */
  lemma AliasFriendsComplete(instances: seq<Instance>, alias: string)
    ensures var fs := AliasFriends(instances, alias);
            forall inst :: inst in instances && Qualifies(instances, alias, inst) ==> CmfFriend(inst) in fs
  {
    match ArtinInstance(instances, alias)
    case None =>
    case Some(a) => MatchingFriendsMembers(instances, a.lhash, Arity(alias));
  }

  /** The friends contributed by all aliases, alias by alias. */
  function AllAliasFriends(instances: seq<Instance>, aliases: seq<string>): (fs: seq<Friend>)
    ensures |aliases| == 0 ==> fs == []
    ensures |aliases| == 1 ==> fs == AliasFriends(instances, aliases[0])
  {
    FlatMap(alias => AliasFriends(instances, alias), aliases)
  }

  /** The friends of a list of aliases are those of its first part followed
      by those of its second part: repeats across aliases are kept. */
  lemma AllAliasFriendsAppend(instances: seq<Instance>, a: seq<string>, b: seq<string>)
    ensures AllAliasFriends(instances, a + b) == AllAliasFriends(instances, a) + AllAliasFriends(instances, b)
  {
    FlatMapAppend(alias => AliasFriends(instances, alias), a, b);
  }

  /** `add_lfunction_friends`: the incoming friends, followed by the links of
      each alias from `both_labels` in turn. */
  function AddLFunctionFriends(table: LegacyTable, instances: seq<Instance>, friends: seq<Friend>, input: string)
    : (r: seq<Friend>)
    ensures |r| >= |friends| && r[..|friends|] == friends
    ensures var aliases := BothLabels(table, input);
            && (|aliases| == 1 ==> r[|friends|..] == AliasFriends(instances, aliases[0]))
            && (|aliases| == 2 ==> r[|friends|..] == AliasFriends(instances, aliases[0]) + AliasFriends(instances, aliases[1]))
  {
    var aliases := BothLabels(table, input);
    var added := AllAliasFriends(instances, aliases);
    HeadTail(aliases);
    AllAliasFriendsAppend(instances, aliases[..1], aliases[1..]);
    var r := friends + added;
    assert r[|friends|..] == added;
    r
  }

  /** Every appended link starts with `/` and comes from a record qualifying
      for an alias from `both_labels`. */
  lemma AddLFunctionFriendsSound(table: LegacyTable, instances: seq<Instance>, friends: seq<Friend>, input: string)
    ensures var added := AddLFunctionFriends(table, instances, friends, input)[|friends|..];
            forall f :: f in added ==>
              && |f.url| > 0 && f.url[0] == '/'
              && exists alias, inst :: alias in BothLabels(table, input) && inst in instances
                                      && Qualifies(instances, alias, inst) && f == CmfFriend(inst)
  {
    var aliases := BothLabels(table, input);
    var added := AddLFunctionFriends(table, instances, friends, input)[|friends|..];
    assert |aliases| == 1 || |aliases| == 2;
    forall f | f in added
      ensures |f.url| > 0 && f.url[0] == '/'
      ensures exists alias, inst :: alias in aliases && inst in instances
                                    && Qualifies(instances, alias, inst) && f == CmfFriend(inst)
    {
      var alias := if f in AliasFriends(instances, aliases[0]) then aliases[0] else aliases[1];
      assert alias in aliases && f in AliasFriends(instances, alias);
      AliasFriendsSound(instances, alias);
    }
  }

  /** Every record qualifying for an alias from `both_labels` is linked. */
  lemma AddLFunctionFriendsComplete(table: LegacyTable, instances: seq<Instance>, friends: seq<Friend>, input: string)
    ensures var added := AddLFunctionFriends(table, instances, friends, input)[|friends|..];
            forall alias, inst :: alias in BothLabels(table, input) && inst in instances
                                  && Qualifies(instances, alias, inst)
                                  ==> CmfFriend(inst) in added
  {
    var aliases := BothLabels(table, input);
    var added := AddLFunctionFriends(table, instances, friends, input)[|friends|..];
    assert |aliases| == 1 || |aliases| == 2;
    AliasFriendsComplete(instances, aliases[0]);
    if |aliases| == 2 {
      AliasFriendsComplete(instances, aliases[1]);
    }
    forall alias, inst | alias in aliases && inst in instances && Qualifies(instances, alias, inst)
      ensures CmfFriend(inst) in added
    {
      assert alias == aliases[0] || alias == aliases[1];
    }
  }

  /** The modular-form label is the URL after its fourth `/`, with every
      further `/` turned into `.`. */
  lemma CmfLabelIsUrlTail(url: string)
    requires |Split(url, '/')| > 4
    ensures var p := Split(url, '/');
            var tail := Join(p[4..], '/');
            url == Join(p[..4], '/') + "/" + tail && CmfLabel(url) == Replace(tail, '/', '.')
  {
    var p := Split(url, '/');
    JoinSplit(url, '/');
    assert p[..4] + p[4..] == p;
    JoinAppend(p[..4], p[4..], '/');
    var tail := Join(p[4..], '/');
    SplitJoin(p[4..], '/');
    JoinSplitReplaces(tail, '/', '.');
  }

  /** The arity a legacy label gets: 10 for a representation, whose last
      segment is `NcM`, and 8 for an orbit. */
  lemma LegacyArity(alias: string)
    ensures IsLegacyRepLabel(alias) ==> Arity(alias) == 10
    ensures IsLegacyOrbitLabel(alias) ==> Arity(alias) == 8
  {
    var last := LastSegment(alias);
    if IsLegacyRepLabel(alias) {
      LegacyMemberSegmentShape(last);
    }
    if IsLegacyOrbitLabel(alias) {
      assert !IsDigit('c');
    }
  }

  /** A member label gets its arity from its member letters alone, not from
      its kind or its orbit: when the letters avoid `c` it gets the orbit
      arity 8. */
  lemma CurrentArityFollowsLetters(orbit: string, letters: string)
    requires IsOrbitLabel(orbit) && IsLetters(letters)
    ensures Arity(MemberLabel(orbit, letters)) == (if 'c' in letters then 10 else 8)
  {
  }

  /** The representation label `4.5648.6t13.b.a` gets the orbit arity 8. */
  lemma RepLabelWithOrbitArity()
    ensures IsRepLabel("4.5648.6t13.b.a") && Arity("4.5648.6t13.b.a") == 8
  {
    var rep := "4.5648.6t13.b.a";
    var orbit := Dotted4("4", "5648", "6t13", "b");
    assert IsOrbitLabel(orbit) by {
      OrbitLabelExample();
    }
    assert Arity(MemberLabel(orbit, "a")) == 8 by {
      CurrentArityFollowsLetters(orbit, "a");
    }
    assert MemberLabel(orbit, "a") == rep && IsRepLabel(rep) by {
      assert MemberLabel(orbit, "a") == Dotted5("4", "5648", "6t13", "b", "a");
      RepLabelExample();
    }
  }
}
