/**
  The whitelist-application decision message: the encoder that renders an
  application, its auto-review verdict and an optional reviewer into a chat
  message (one embed plus two rows of controls), and the decoder that
  recovers the application from the first embed of such a message.
 */
module DecisionMessage {
  import opened Wrappers
  import opened RejectReasons

  /** One applicant's submission; every field is text. */
  datatype Application = Application(
    discordId: string,
    minecraftName: string,
    minecraftUuid: string,
    age: string,
    minecraftSkinSum: string,
    reason: string)

  /** All six fields are non-empty, as a submission is expected to be. */
  predicate WellFormed(a: Application)
  {
    a.discordId != "" && a.minecraftName != "" && a.minecraftUuid != "" &&
    a.age != "" && a.minecraftSkinSum != "" && a.reason != ""
  }

  /** The auto-review verdict; `Other` stands for any status value outside the three known ones. */
  datatype AutoReviewStatus = Accepted | Rejected | NeedsManualReview | Other

  /** The auto-review result: a verdict and its machine-written justification. */
  datatype AutoReviewResult = AutoReviewResult(status: AutoReviewStatus, reason: string)

  /** The reviewer, of whom only the user id is used. */
  datatype User = User(id: string)

  /** The embed colours used; `Blurple` is the default. */
  datatype Color = Blurple | Green | Red | Yellow

  /** A named field of an embed. */
  datatype Field = Field(name: string, value: string)

  /** An embed: a title, a description, ordered fields, a colour and two image URLs. */
  datatype Embed = Embed(
    title: Option<string>,
    description: Option<string>,
    fields: seq<Field>,
    color: Color,
    image: Option<string>,
    thumbnail: Option<string>)

  /** The button styles of the platform; the accept button uses the success style. */
  datatype ButtonStyle = PrimaryStyle | SecondaryStyle | SuccessStyle | DangerStyle

  /** One option of a select menu: the text shown and the value reported when it is picked. */
  datatype SelectOption = SelectOption(optionLabel: string, value: string)

  /** An interactive control of a message. */
  datatype Control =
    | Button(customId: string, buttonLabel: string, style: ButtonStyle)
    | StringSelect(customId: string, options: seq<SelectOption>, placeholder: string)

  /** A row of controls. */
  datatype ActionRow = ActionRow(controls: seq<Control>)

  /** A chat message as far as this codec writes and reads it. */
  datatype Message = Message(embeds: seq<Embed>, components: seq<ActionRow>)

  /** The two events a reviewer can raise from the decision message. */
  datatype DecisionEvent = Accept | Reject

  /** The custom id a control carries so that its event can be routed back. */
  function EventId(e: DecisionEvent): string
  {
    match e
    case Accept => "minecraft-application-decision-accept"
    case Reject => "minecraft-application-decision-reject"
  }

  /** The ways decoding fails. */
  datatype ParseError = NoEmbed | MissingFields

  /** The text of the error each failure throws. */
  function ErrorText(e: ParseError): string
  {
    match e
    case NoEmbed => "error parsing application decision message"
    case MissingFields => "embed missing fields."
  }

  /** The text the chat platform renders as a mention of a user id. */
  function Mention(id: string): string
  {
    "<@" + id + ">"
  }

  /** The body-render picture of a Minecraft player. */
  function BodyRenderUrl(minecraftName: string): string
  {
    "https://mc-heads.net/body/" + minecraftName + ".png"
  }

  // ---------------------------------------------------------------- encoder

  /**
    The embed colour for a verdict. The three known verdicts each get their
    own colour, and only an unknown value keeps the default.
   */
  function ColorOf(status: AutoReviewStatus): (c: Color)
    ensures c == Blurple <==> status.Other?
  {
    match status
    case Accepted => Green
    case Rejected => Red
    case NeedsManualReview => Yellow
    case Other => Blurple
  }

  /** The fields written for every application, before any reviewer field. */
  function ApplicationFields(a: Application, review: AutoReviewResult): seq<Field>
  {
    [
      Field("discordId", a.discordId),
      Field("discord", Mention(a.discordId)),
      Field("age", a.age),
      Field("minecraftName", a.minecraftName),
      Field("minecraftUuid", a.minecraftUuid),
      Field("minecraftSkinSum", a.minecraftSkinSum),
      Field("autoReviewComment", review.reason)
    ]
  }

  /**
    The decision embed for an application, its verdict and an optional
    reviewer: the reason as description, the verdict's colour, the body
    render as image and thumbnail, and seven fields plus one for a reviewer.
   */
  function DecisionEmbed(a: Application, review: AutoReviewResult, reviewer: Option<User>): (e: Embed)
    ensures e.description == Some(a.reason)
    ensures e.color == ColorOf(review.status)
    ensures e.image == e.thumbnail == Some(BodyRenderUrl(a.minecraftName))
    ensures |e.fields| == if reviewer.Some? then 8 else 7
  {
    var url := BodyRenderUrl(a.minecraftName);
    var fields := ApplicationFields(a, review) +
      match reviewer
      case None => []
      case Some(u) => [Field("reviewer", Mention(u.id))];
    Embed(Some("Whitelist Application"), Some(a.reason), fields, ColorOf(review.status), Some(url), Some(url))
  }

  /**
    The reject selector's options: one per catalog entry, in catalog
    order, the entry's code as value and its label as text.
   */
  function RejectOptions(entries: seq<DenyReason>): (options: seq<SelectOption>)
    ensures |options| == |entries|
    ensures forall i :: 0 <= i < |entries| ==>
              options[i].value == Code(entries[i].value) && options[i].optionLabel == entries[i].labelText
  {
    seq(|entries|, i requires 0 <= i < |entries| => SelectOption(entries[i].labelText, Code(entries[i].value)))
  }

  /** The two control rows: an accept button, then a reject-with-reason selector. */
  function DecisionControls(): (rows: seq<ActionRow>)
    ensures |rows| == 2
    ensures rows[0].controls == [Button("minecraft-application-decision-accept", "Accept", SuccessStyle)]
    ensures |rows[1].controls| == 1 && rows[1].controls[0].StringSelect?
    ensures rows[1].controls[0].customId == "minecraft-application-decision-reject"
    ensures rows[1].controls[0].options == RejectOptions(DenyReasons())
  {
    [
      ActionRow([Button(EventId(Accept), "Accept", SuccessStyle)]),
      ActionRow([StringSelect(EventId(Reject), RejectOptions(DenyReasons()), "Reject with reason")])
    ]
  }

  /** The complete decision message: exactly one embed, the decision embed, and the two control rows. */
  function DecisionMessageOptions(a: Application, review: AutoReviewResult, reviewer: Option<User>): (m: Message)
    ensures |m.embeds| == 1 && m.embeds[0] == DecisionEmbed(a, review, reviewer)
    ensures m.components == DecisionControls()
  {
    Message([DecisionEmbed(a, review, reviewer)], DecisionControls())
  }

  /**
    Every value the reject selector can report is the code of one reason,
    and the reverse lookup table maps that reason to the label the option
    showed.
   */
  lemma SelectedOptionDescribed(i: nat)
    requires i < |RejectOptions(DenyReasons())|
    ensures var option := RejectOptions(DenyReasons())[i];
      exists r :: Code(r) == option.value && DenyReasonDescriptions()[r] == option.optionLabel
  {
    var r := DenyReasons()[i].value;
    assert Code(r) == RejectOptions(DenyReasons())[i].value;
  }

  // ---------------------------------------------------------------- decoder

  /** The names of the fields the decoder reads. */
  function DecodedNames(): set<string>
  {
    {"discordId", "minecraftUuid", "minecraftName", "age", "minecraftSkinSum"}
  }

  /** `fields[i]` is the last field named `name`. */
  ghost predicate LastAt(fields: seq<Field>, name: string, i: int)
  {
    0 <= i < |fields| && fields[i].name == name &&
    forall j :: i < j < |fields| ==> fields[j].name != name
  }

  /** `v` is the value of the last field named `name` in `fields`. */
  ghost predicate IsLastValue(fields: seq<Field>, name: string, v: string)
  {
    exists i :: LastAt(fields, name, i) && fields[i].value == v
  }

  /**
    The value the decoder's scan leaves for `name`: each field with that
    name overwrites the previous value, so the last one wins.
   */
  function LastValue(fields: seq<Field>, name: string): (r: Option<string>)
    ensures r.None? <==> forall i :: 0 <= i < |fields| ==> fields[i].name != name
    ensures r.Some? ==> IsLastValue(fields, name, r.value)
  {
    if fields == [] then None
    else
      var n := |fields| - 1;
      if fields[n].name == name then
        assert LastAt(fields, name, n);
        Some(fields[n].value)
      else
        var init := fields[..n];
        var r := LastValue(init, name);
        assert r.Some? ==> IsLastValue(fields, name, r.value) by {
          if r.Some? {
            var i :| LastAt(init, name, i) && init[i].value == r.value;
            assert LastAt(fields, name, i);
          }
        }
        assert r.None? ==> forall i :: 0 <= i < |fields| ==> fields[i].name != name by {
          if r.None? {
            forall i | 0 <= i < |fields| ensures fields[i].name != name {
              if i < n { assert init[i] == fields[i]; }
            }
          }
        }
        r
  }

  /** A JavaScript truthy string: present and not empty. */
  predicate Truthy(v: Option<string>)
  {
    v.Some? && v.value != ""
  }

  /**
    The first embed carries all six values: a non-empty description and a
    non-empty last value under each of the five decoded names.
   */
  predicate AllPresent(e: Embed)
  {
    && Truthy(e.description)
    && Truthy(LastValue(e.fields, "discordId"))
    && Truthy(LastValue(e.fields, "minecraftUuid"))
    && Truthy(LastValue(e.fields, "minecraftName"))
    && Truthy(LastValue(e.fields, "age"))
    && Truthy(LastValue(e.fields, "minecraftSkinSum"))
  }

  /**
    What decoding a message yields. Only the first embed is read; the
    message has no embed, or one of the six values is absent or empty,
    or the application read from the embed.
   */
  function Decode(m: Message): (r: Result<Application, ParseError>)
    ensures r == Failure(NoEmbed) <==> |m.embeds| == 0
    ensures r.Success? <==> |m.embeds| > 0 && AllPresent(m.embeds[0])
    ensures r.Success? ==> WellFormed(r.value)
    ensures r.Success? ==> Some(r.value.reason) == m.embeds[0].description
    ensures r.Success? ==>
              var fields := m.embeds[0].fields;
              && IsLastValue(fields, "discordId", r.value.discordId)
              && IsLastValue(fields, "minecraftUuid", r.value.minecraftUuid)
              && IsLastValue(fields, "minecraftName", r.value.minecraftName)
              && IsLastValue(fields, "age", r.value.age)
              && IsLastValue(fields, "minecraftSkinSum", r.value.minecraftSkinSum)
  {
    if |m.embeds| < 1 then Failure(NoEmbed)
    else
      var embed := m.embeds[0];
      var reason := embed.description;
      var discordId := LastValue(embed.fields, "discordId");
      var minecraftUuid := LastValue(embed.fields, "minecraftUuid");
      var minecraftName := LastValue(embed.fields, "minecraftName");
      var age := LastValue(embed.fields, "age");
      var minecraftSkinSum := LastValue(embed.fields, "minecraftSkinSum");
      if !Truthy(discordId) || !Truthy(minecraftUuid) || !Truthy(minecraftName) ||
         !Truthy(reason) || !Truthy(age) || !Truthy(minecraftSkinSum)
      then Failure(MissingFields)
      else Success(Application(discordId.value, minecraftName.value, minecraftUuid.value,
                               age.value, minecraftSkinSum.value, reason.value))
  }

  /**
    The decoder as the source runs it: one pass over the first embed's
    fields, updating five variables, then the presence check.
   */
  method ParseDecisionMessage(m: Message) returns (r: Result<Application, ParseError>)
    ensures r == Decode(m)
  {
    if |m.embeds| < 1 {
      return Failure(NoEmbed);
    }
    var embed := m.embeds[0];
    var reason := embed.description;
    var discordId: Option<string> := None;
    var minecraftUuid: Option<string> := None;
    var minecraftName: Option<string> := None;
    var minecraftSkinSum: Option<string> := None;
    var age: Option<string> := None;
    var i := 0;
    while i < |embed.fields|
      invariant 0 <= i <= |embed.fields|
      invariant discordId == LastValue(embed.fields[..i], "discordId")
      invariant minecraftUuid == LastValue(embed.fields[..i], "minecraftUuid")
      invariant minecraftName == LastValue(embed.fields[..i], "minecraftName")
      invariant age == LastValue(embed.fields[..i], "age")
      invariant minecraftSkinSum == LastValue(embed.fields[..i], "minecraftSkinSum")
    {
      var field := embed.fields[i];
      assert embed.fields[..i + 1][..i] == embed.fields[..i];
      if field.name == "discordId" { discordId := Some(field.value); }
      if field.name == "minecraftUuid" { minecraftUuid := Some(field.value); }
      if field.name == "minecraftName" { minecraftName := Some(field.value); }
      if field.name == "age" { age := Some(field.value); }
      if field.name == "minecraftSkinSum" { minecraftSkinSum := Some(field.value); }
      i := i + 1;
    }
    assert embed.fields[..i] == embed.fields;
    if !Truthy(discordId) || !Truthy(minecraftUuid) || !Truthy(minecraftName) ||
       !Truthy(reason) || !Truthy(age) || !Truthy(minecraftSkinSum) {
      return Failure(MissingFields);
    }
    return Success(Application(discordId.value, minecraftName.value, minecraftUuid.value,
                               age.value, minecraftSkinSum.value, reason.value));
  }

  // ---------------------------------------------------------------- properties

  /** Two known verdicts never share a colour, and no known verdict shares the default. */
  lemma ColorDistinguishesVerdicts(s: AutoReviewStatus, t: AutoReviewStatus)
    ensures ColorOf(s) == ColorOf(t) ==> s == t
  {
  }

  /** The names of a list of fields, in order. */
  function Names(fields: seq<Field>): (ns: seq<string>)
    ensures |ns| == |fields|
    ensures forall i :: 0 <= i < |fields| ==> ns[i] == fields[i].name
  {
    seq(|fields|, i requires 0 <= i < |fields| => fields[i].name)
  }

  /**
    The embed's layout: the title, the reason as description, seven fields
    in a fixed order, and a reviewer mention appended last only when a
    reviewer is given.
   */
  lemma DecisionEmbedLayout(a: Application, review: AutoReviewResult, reviewer: Option<User>)
    ensures var e := DecisionEmbed(a, review, reviewer);
      && e.title == Some("Whitelist Application")
      && e.description == Some(a.reason)
      && e.color == ColorOf(review.status)
      && Names(e.fields)[..7] ==
           ["discordId", "discord", "age", "minecraftName", "minecraftUuid",
            "minecraftSkinSum", "autoReviewComment"]
      && e.fields[0].value == a.discordId
      && e.fields[1].value == Mention(a.discordId)
      && e.fields[2].value == a.age
      && e.fields[3].value == a.minecraftName
      && e.fields[4].value == a.minecraftUuid
      && e.fields[5].value == a.minecraftSkinSum
      && e.fields[6].value == review.reason
      && (reviewer.None? ==> |e.fields| == 7)
      && (reviewer.Some? ==> |e.fields| == 8 && e.fields[7] == Field("reviewer", Mention(reviewer.value.id)))
  {
  }

  /**
    The image and the thumbnail are one URL, the body render of the
    Minecraft name, and nothing else about the application, the verdict
    or the reviewer changes it.
   */
  lemma PicturesDependOnNameOnly(a: Application, review: AutoReviewResult, reviewer: Option<User>,
                                 b: Application, review': AutoReviewResult, reviewer': Option<User>)
    requires a.minecraftName == b.minecraftName
    ensures var e := DecisionEmbed(a, review, reviewer);
      && e.image == e.thumbnail == Some(BodyRenderUrl(a.minecraftName))
      && e.image == DecisionEmbed(b, review', reviewer').image
  {
  }

  /**
    The message carries exactly two control rows: an accept button, and a
    reject selector offering every catalog entry in catalog order, each
    with its code as value and its label as text.
   */
  lemma DecisionControlsLayout(a: Application, review: AutoReviewResult, reviewer: Option<User>)
    ensures var rows := DecisionMessageOptions(a, review, reviewer).components;
      && |rows| == 2
      && rows[0].controls == [Button("minecraft-application-decision-accept", "Accept", SuccessStyle)]
      && |rows[1].controls| == 1
      && rows[1].controls[0].StringSelect?
      && rows[1].controls[0].customId == "minecraft-application-decision-reject"
      && |rows[1].controls[0].options| == |DenyReasons()| == 13
      && forall i :: 0 <= i < |DenyReasons()| ==>
           rows[1].controls[0].options[i] ==
             SelectOption(DenyReasons()[i].labelText, Code(DenyReasons()[i].value))
  {
    DenyReasonsCoverAll();
  }

  /**
    Round trip: decoding the rendered message returns the application
    exactly when its six fields are non-empty, whatever the verdict and
    whether or not there is a reviewer; otherwise decoding reports missing
    fields.
   */
  lemma RoundTrip(a: Application, review: AutoReviewResult, reviewer: Option<User>)
    ensures WellFormed(a) ==> Decode(DecisionMessageOptions(a, review, reviewer)) == Success(a)
    ensures !WellFormed(a) ==> Decode(DecisionMessageOptions(a, review, reviewer)) == Failure(MissingFields)
  {
    var embed := DecisionEmbed(a, review, reviewer);
    assert DecisionMessageOptions(a, review, reviewer).embeds == [embed];
    DecodedFieldValues(a, review, reviewer);
  }

  /** Scanning the rendered fields finds each decoded name's own value, with or without a reviewer. */
  lemma DecodedFieldValues(a: Application, review: AutoReviewResult, reviewer: Option<User>)
    ensures var fields := DecisionEmbed(a, review, reviewer).fields;
      && LastValue(fields, "discordId") == Some(a.discordId)
      && LastValue(fields, "minecraftUuid") == Some(a.minecraftUuid)
      && LastValue(fields, "minecraftName") == Some(a.minecraftName)
      && LastValue(fields, "age") == Some(a.age)
      && LastValue(fields, "minecraftSkinSum") == Some(a.minecraftSkinSum)
  {
    var fields := DecisionEmbed(a, review, reviewer).fields;
    var fixed := ApplicationFields(a, review);
    ApplicationFieldValues(a, review);
    if reviewer.Some? {
      var last := Field("reviewer", Mention(reviewer.value.id));
      assert fields == fixed + [last];
      LastValueSnoc(fixed, last, "discordId");
      LastValueSnoc(fixed, last, "minecraftUuid");
      LastValueSnoc(fixed, last, "minecraftName");
      LastValueSnoc(fixed, last, "age");
      LastValueSnoc(fixed, last, "minecraftSkinSum");
    } else {
      assert fields == fixed;
    }
  }

  /** Appending a field changes the scanned value of its own name only. */
  lemma LastValueSnoc(fields: seq<Field>, f: Field, name: string)
    ensures LastValue(fields + [f], name) == if f.name == name then Some(f.value) else LastValue(fields, name)
  {
    assert (fields + [f])[..|fields|] == fields;
  }

  /** A name carried by exactly one field scans to that field's value. */
  lemma LastValueUnique(fields: seq<Field>, name: string, i: nat)
    requires i < |fields| && fields[i].name == name
    requires forall j :: 0 <= j < |fields| && j != i ==> fields[j].name != name
    ensures LastValue(fields, name) == Some(fields[i].value)
  {
    var r := LastValue(fields, name);
    var j :| LastAt(fields, name, j) && fields[j].value == r.value;
  }

  /** Scanning the seven application fields finds each decoded name's own value. */
  lemma ApplicationFieldValues(a: Application, review: AutoReviewResult)
    ensures var fixed := ApplicationFields(a, review);
      && LastValue(fixed, "discordId") == Some(a.discordId)
      && LastValue(fixed, "minecraftUuid") == Some(a.minecraftUuid)
      && LastValue(fixed, "minecraftName") == Some(a.minecraftName)
      && LastValue(fixed, "age") == Some(a.age)
      && LastValue(fixed, "minecraftSkinSum") == Some(a.minecraftSkinSum)
  {
    var fixed := ApplicationFields(a, review);
    LastValueUnique(fixed, "discordId", 0);
    LastValueUnique(fixed, "age", 2);
    LastValueUnique(fixed, "minecraftName", 3);
    LastValueUnique(fixed, "minecraftUuid", 4);
    LastValueUnique(fixed, "minecraftSkinSum", 5);
  }

  /**
    Decoding does not recover the verdict or the reviewer: messages that
    differ only in those decode alike.
   */
  lemma DecodeIgnoresVerdictAndReviewer(a: Application, review: AutoReviewResult, reviewer: Option<User>,
                                        review': AutoReviewResult, reviewer': Option<User>)
    ensures Decode(DecisionMessageOptions(a, review, reviewer)) ==
            Decode(DecisionMessageOptions(a, review', reviewer'))
  {
    RoundTrip(a, review, reviewer);
    RoundTrip(a, review', reviewer');
  }

  /** Only the first embed is read; later embeds and the controls do not matter. */
  lemma DecodeReadsFirstEmbedOnly(e: Embed, rest: seq<Embed>, rest': seq<Embed>,
                                  rows: seq<ActionRow>, rows': seq<ActionRow>)
    ensures Decode(Message([e] + rest, rows)) == Decode(Message([e] + rest', rows'))
  {
    assert ([e] + rest)[0] == e && ([e] + rest')[0] == e;
  }

  /** Inserting a field of another name anywhere leaves the scanned value of `name` unchanged. */
  lemma {:induction false} LastValueInsertOther(fields: seq<Field>, k: nat, f: Field, name: string)
    requires k <= |fields|
    requires f.name != name
    ensures LastValue(fields[..k] + [f] + fields[k..], name) == LastValue(fields, name)
  {
    if k == |fields| {
      assert fields[..k] + [f] + fields[k..] == fields + [f];
      LastValueSnoc(fields, f, name);
    } else {
      var n := |fields| - 1;
      var init := fields[..n];
      LastValueInsertOther(init, k, f, name);
      assert init[..k] == fields[..k];
      assert fields[..k] + [f] + fields[k..] == (init[..k] + [f] + init[k..]) + [fields[n]];
      LastValueSnoc(init[..k] + [f] + init[k..], fields[n], name);
      LastValueSnoc(init, fields[n], name);
      assert init + [fields[n]] == fields;
    }
  }

  /**
    Fields whose names the decoder does not read (such as "discord",
    "autoReviewComment" and "reviewer") never change what is decoded,
    wherever they stand in the first embed.
   */
  lemma DecodeIgnoresOtherFields(m: Message, k: nat, f: Field)
    requires |m.embeds| > 0
    requires k <= |m.embeds[0].fields|
    requires f.name !in DecodedNames()
    ensures var e := m.embeds[0];
      var e' := e.(fields := e.fields[..k] + [f] + e.fields[k..]);
      Decode(m.(embeds := [e'] + m.embeds[1..])) == Decode(m)
  {
    var fields := m.embeds[0].fields;
    LastValueInsertOther(fields, k, f, "discordId");
    LastValueInsertOther(fields, k, f, "minecraftUuid");
    LastValueInsertOther(fields, k, f, "minecraftName");
    LastValueInsertOther(fields, k, f, "age");
    LastValueInsertOther(fields, k, f, "minecraftSkinSum");
  }

  /**
    A first embed with no field of a decoded name, or with an empty last
    value for it, or with no or an empty description, fails with the
    missing-fields error.
   */
  lemma MissingFieldFails(m: Message, name: string)
    requires |m.embeds| > 0
    requires name in DecodedNames()
    requires !Truthy(LastValue(m.embeds[0].fields, name)) || !Truthy(m.embeds[0].description)
    ensures Decode(m) == Failure(MissingFields)
  {
  }

  /**
    A first embed with a non-empty description and a non-empty last value
    under every decoded name decodes successfully.
   */
  lemma AllPresentSucceeds(m: Message)
    requires |m.embeds| > 0
    requires Truthy(m.embeds[0].description)
    requires forall n :: n in DecodedNames() ==> Truthy(LastValue(m.embeds[0].fields, n))
    ensures Decode(m).Success?
  {
    assert "discordId" in DecodedNames();
    assert "minecraftUuid" in DecodedNames();
    assert "minecraftName" in DecodedNames();
    assert "age" in DecodedNames();
    assert "minecraftSkinSum" in DecodedNames();
  }

  /** The two decoding errors are distinguishable by their text. */
  lemma ParseErrorsDistinct()
    ensures ErrorText(NoEmbed) != ErrorText(MissingFields)
  {
  }
}
