/**
  The catalog of reasons a reviewer may give for rejecting a whitelist
  application: an ordered table of (label, code) pairs, and the reverse
  lookup from code to label that is filled from it when the module loads.
 */
module RejectReasons {
  import opened Seqs

  /** The closed set of rejection codes, in the order the type union lists them. */
  datatype RejectReason =
    | Underage
    | NoReasonProvided
    | LowEffortApplication
    | OffensiveName
    | OffensiveSkin
    | OffensiveUsername
    | OffensiveDiscordUser
    | OffensiveApplication
    | UserNotInDiscordServer
    | NoMinecraftAccount
    | OtherBannable
    | InvalidAge
    | Other

  /** The stable string code of a reason, as it travels as a selector value. */
  function Code(r: RejectReason): string
  {
    match r
    case Underage => "underage"
    case NoReasonProvided => "no_reason_provided"
    case LowEffortApplication => "low_effort_application"
    case OffensiveName => "offensive_name"
    case OffensiveSkin => "offensive_skin"
    case OffensiveUsername => "offensive_username"
    case OffensiveDiscordUser => "offensive_discord_user"
    case OffensiveApplication => "offensive_application"
    case UserNotInDiscordServer => "user_not_in_discord_server"
    case NoMinecraftAccount => "no_minecraft_account"
    case OtherBannable => "other_bannable"
    case InvalidAge => "invalid_age"
    case Other => "other"
  }

  /** One catalog entry: the label shown to the reviewer and the reason it stands for. */
  datatype DenyReason = DenyReason(labelText: string, value: RejectReason)

  /** The catalog, in the order its options are offered to a reviewer. */
  function DenyReasons(): (c: seq<DenyReason>)
    ensures |c| == 13
    ensures c[0].value == Underage && c[12].value == InvalidAge
  {
    [
      DenyReason("underage (< 13)", Underage),
      DenyReason("no reason provided", NoReasonProvided),
      DenyReason("Low effort application", LowEffortApplication),
      DenyReason("offensive name", OffensiveName),
      DenyReason("offensive skin", OffensiveSkin),
      DenyReason("offensive username", OffensiveUsername),
      DenyReason("offensive discord avatar/username/status/bio", OffensiveDiscordUser),
      DenyReason("offensive application", OffensiveApplication),
      DenyReason("user not in discord server", UserNotInDiscordServer),
      DenyReason("minecraft account not found", NoMinecraftAccount),
      DenyReason("other", Other),
      DenyReason("other (bannable)", OtherBannable),
      DenyReason("invalid age", InvalidAge)
    ]
  }

  /** The reasons of a list of entries, in order. */
  function Values(entries: seq<DenyReason>): (vs: seq<RejectReason>)
    ensures |vs| == |entries|
    ensures forall i :: 0 <= i < |entries| ==> vs[i] == entries[i].value
  {
    seq(|entries|, i requires 0 <= i < |entries| => entries[i].value)
  }

  /** Distinct reasons have distinct codes, so a code identifies its reason. */
  lemma CodeInjective(r: RejectReason, s: RejectReason)
    ensures Code(r) == Code(s) ==> r == s
  {
  }

  /** The reasons of the catalog, in catalog order. */
  lemma CatalogValues()
    ensures Values(DenyReasons()) ==
              [Underage, NoReasonProvided, LowEffortApplication, OffensiveName,
               OffensiveSkin, OffensiveUsername, OffensiveDiscordUser,
               OffensiveApplication, UserNotInDiscordServer, NoMinecraftAccount,
               Other, OtherBannable, InvalidAge]
  {
  }

  /** The catalog has 13 entries and lists every reason of the closed set. */
  lemma DenyReasonsCoverAll()
    ensures |DenyReasons()| == 13
    ensures forall r: RejectReason :: r in Values(DenyReasons())
  {
    CatalogValues();
    var vs := Values(DenyReasons());
    forall r: RejectReason ensures r in vs {
      var k := match r
        case Underage => 0 case NoReasonProvided => 1 case LowEffortApplication => 2
        case OffensiveName => 3 case OffensiveSkin => 4 case OffensiveUsername => 5
        case OffensiveDiscordUser => 6 case OffensiveApplication => 7
        case UserNotInDiscordServer => 8 case NoMinecraftAccount => 9
        case Other => 10 case OtherBannable => 11 case InvalidAge => 12;
      assert vs[k] == r;
    }
  }

  /** No reason is listed twice, and the codes of the entries are pairwise distinct. */
  lemma DenyReasonsDistinct()
    ensures Distinct(Values(DenyReasons()))
    ensures forall i, j :: 0 <= i < j < |DenyReasons()| ==>
              Code(DenyReasons()[i].value) != Code(DenyReasons()[j].value)
  {
    CatalogValues();
    var c := DenyReasons();
    forall i, j | 0 <= i < j < |c| ensures Code(c[i].value) != Code(c[j].value) {
      CodeInjective(c[i].value, c[j].value);
    }
  }

  /**
    Catalog order is the array order, not the type-union order: "other"
    comes before "other_bannable" and "invalid_age", and is third from last.
   */
  lemma DenyReasonsOrder()
    ensures DenyReasons()[10].value == Other
    ensures DenyReasons()[11].value == OtherBannable
    ensures DenyReasons()[12].value == InvalidAge
    ensures DenyReasons()[0].value == Underage
  {
  }

  /**
    The reverse map that results from setting, entry by entry in order,
    the entry's reason to its label; a later entry for the same reason
    overwrites an earlier one.
   */
  function DescriptionsOf(entries: seq<DenyReason>): (m: map<RejectReason, string>)
    ensures m.Keys == Elements(Values(entries))
  {
    if entries == [] then map[]
    else
      var n := |entries| - 1;
      var init := entries[..n];
      var m := DescriptionsOf(init)[entries[n].value := entries[n].labelText];
      assert Values(entries) == Values(init) + [entries[n].value];
      m
  }

  /**
    The reverse lookup table held by the module once it has loaded: it
    has a key for every reason, and each catalog entry's reason is mapped
    to that entry's label.
   */
  function DenyReasonDescriptions(): (m: map<RejectReason, string>)
    ensures forall r: RejectReason :: r in m
    ensures forall i :: 0 <= i < |DenyReasons()| ==> m[DenyReasons()[i].value] == DenyReasons()[i].labelText
  {
    DenyReasonsCoverAll();
    DenyReasonsDistinct();
    DescriptionsOfDistinct(DenyReasons());
    DescriptionsOf(DenyReasons())
  }

  /** The module-load loop that fills the reverse lookup table from a list of entries. */
  method BuildDescriptions(entries: seq<DenyReason>) returns (m: map<RejectReason, string>)
    ensures m == DescriptionsOf(entries)
  {
    m := map[];
    var i := 0;
    while i < |entries|
      invariant 0 <= i <= |entries|
      invariant m == DescriptionsOf(entries[..i])
    {
      assert entries[..i + 1][..i] == entries[..i];
      m := m[entries[i].value := entries[i].labelText];
      i := i + 1;
    }
    assert entries[..i] == entries;
  }

  /**
    When the entries' reasons are pairwise distinct, the reverse map has
    exactly one key per entry, mapped to that entry's label.
   */
  lemma {:induction false} DescriptionsOfDistinct(entries: seq<DenyReason>)
    requires Distinct(Values(entries))
    ensures DescriptionsOf(entries).Keys == Elements(Values(entries))
    ensures forall i :: 0 <= i < |entries| ==>
              DescriptionsOf(entries)[entries[i].value] == entries[i].labelText
  {
    if entries != [] {
      var n := |entries| - 1;
      var init := entries[..n];
      assert Values(init) == Values(entries)[..n];
      DescriptionsOfDistinct(init);
      assert Values(entries) == Values(init) + [entries[n].value];
      forall i | 0 <= i < n
        ensures DescriptionsOf(entries)[entries[i].value] == entries[i].labelText
      {
        assert init[i] == entries[i];
        assert Values(entries)[i] != Values(entries)[n];
      }
    }
  }

  /**
    Once loaded, the reverse map has exactly 13 keys: one per catalog
    entry, the reasons the catalog lists.
   */
  lemma DenyReasonDescriptionsExact()
    ensures DenyReasonDescriptions().Keys == Elements(Values(DenyReasons()))
    ensures |DenyReasonDescriptions()| == 13
  {
    DenyReasonsDistinct();
    DistinctCardinality(Values(DenyReasons()));
  }
}
