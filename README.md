# Whitelist-application decision message and command registry

A Dafny model of two parts of a chat-bot that reviews Minecraft whitelist
applications.

- **Decision message codec** (`decision_message.dfy`, module `DecisionMessage`).
  The encoder turns an application, an auto-review verdict and an optional
  reviewer into a message. The message holds one embed and two control rows.
  The embed has a title, the application's reason as description, named
  fields in a fixed order, a colour chosen by the verdict, and a body-render
  picture. The first control row is an accept button. The second is a reject
  selector. The decoder reads the first embed back into the application. It
  matches field names exactly and the last field of a name wins. It is
  modelled twice: as the function `Decode`, and as the method
  `ParseDecisionMessage`, which runs the source's single loop over the fields
  and is proved equal to `Decode`.
- **Reject-reason catalog** (`reject_reasons.dfy`, module `RejectReasons`).
  A fixed, ordered table of 13 (label, code) entries. A reverse map from
  reason to label is filled from it by a loop when the module loads
  (`BuildDescriptions`).
- **Command registry** (`commands.dfy`, module `Commands`). The class
  `CommandCollection` keeps a map from command name to command. It also keeps
  the order in which names were first inserted, which is the iteration order
  of a JavaScript `Map`. `Use` upserts. `Handle` dispatches and contains a
  throwing handler. `Register` builds the one bulk-registration request and
  refuses an empty table. The pure functions `Upsert` and `Payload` over the
  abstract `Table` value state what the methods do. The lemmas are about them.
- `wrappers.dfy` (`Option`, `Result`) and `seqs.dfy` (distinct sequences) are
  helpers.

No handler, reply or REST call is actually performed.
A handler is a function from the interaction to an outcome: it returned or
threw, and whether the interaction had been replied to by then. `Handle`
returns whether a handler ran and the reply the registry itself sends, if
any. `Register` returns the request it would send (token, route and body) or
the error it throws.

## Model

| member | source | states |
|---|---|---|
| DecisionMessage.ColorOf | src/views/application/minecraft-application-decision-message.ts:37-49 | the colour is total over the verdict; the default Blurple is kept exactly for a value outside Accepted, Rejected, NeedsManualReview |
| DecisionMessage.ColorDistinguishesVerdicts | src/views/application/minecraft-application-decision-message.ts:39-49 | no two statuses share a colour unless both are unknown values, so the three known verdicts get three distinct colours, none of them the default (which colours they are is given by `ColorOf`'s definition) |
| DecisionMessage.DecisionEmbed | src/views/application/minecraft-application-decision-message.ts:24-98 | the description is the reason, the colour is the verdict's, image and thumbnail are both the body render of minecraftName, and there are 7 fields, or 8 with a reviewer; `DecisionEmbedLayout` and `RoundTrip` state the rest |
| DecisionMessage.DecisionEmbedLayout | src/views/application/minecraft-application-decision-message.ts:51-96 | title, description = reason, colour from the verdict; exactly 7 fields discordId, discord (`<@id>`), age, minecraftName, minecraftUuid, minecraftSkinSum, autoReviewComment with their values; an 8th field reviewer = `<@reviewer.id>` appended last only when a reviewer is given |
| DecisionMessage.PicturesDependOnNameOnly | src/views/application/minecraft-application-decision-message.ts:85-88 | image and thumbnail are the same body-render URL of minecraftName, and no other input changes it |
| DecisionMessage.RejectOptions | src/views/application/minecraft-application-decision-message.ts:203-206 | one option per catalog entry in catalog order, the entry's code as value and its label as text |
| DecisionMessage.DecisionControls | src/views/application/minecraft-application-decision-message.ts:196-209 | exactly two rows: one Accept button with the accept event id and success style, then one select with the reject event id whose options are `RejectOptions` of the catalog |
| DecisionMessage.DecisionMessageOptions | src/views/application/minecraft-application-decision-message.ts:182-211 | the message has exactly one embed, the decision embed, and the two control rows |
| DecisionMessage.SelectedOptionDescribed | src/views/application/minecraft-application-decision-message.ts:178-206 | every value the reject selector can report is the code of one reason, and the reverse map gives that reason the label the option showed |
| DecisionMessage.DecisionControlsLayout | src/views/application/minecraft-application-decision-message.ts:196-209 | in the rendered message, the selector offers exactly the 13 catalog entries, the i-th option being the i-th entry's label and code |
| DecisionMessage.LastValue | src/views/application/minecraft-application-decision-message.ts:228-234 | the scanned value of a name is absent exactly when no field has that name, and otherwise is the value of the last field with that name |
| DecisionMessage.LastValueSnoc | src/views/application/minecraft-application-decision-message.ts:228-234 | appending a field changes the scanned value of its own name only, to that field's value |
| DecisionMessage.Decode | src/views/application/minecraft-application-decision-message.ts:213-255 | fails with the no-embed error exactly when there is no embed, and succeeds exactly when the first embed has a non-empty description and a non-empty last value under each of the five names; on success reason is that description and each other value is the last field of its exact name |
| DecisionMessage.ParseDecisionMessage | src/views/application/minecraft-application-decision-message.ts:213-255 | the one-pass loop with five mutable variables returns exactly what `Decode` specifies |
| DecisionMessage.LastValueUnique | src/views/application/minecraft-application-decision-message.ts:228-234 | a name carried by exactly one field scans to that field's value |
| DecisionMessage.ApplicationFieldValues | src/views/application/minecraft-application-decision-message.ts:54-83 | scanning the seven application fields finds each decoded name's own application value |
| DecisionMessage.DecodedFieldValues | src/views/application/minecraft-application-decision-message.ts:89-96 | the same holds with the reviewer field appended, which collides with no decoded name |
| DecisionMessage.RoundTrip | src/views/application/minecraft-application-decision-message.ts:182-255 | decoding the rendered message returns the application unchanged for any verdict and any reviewer when its six fields are non-empty, and fails with missing fields otherwise |
| DecisionMessage.DecodeIgnoresVerdictAndReviewer | src/views/application/minecraft-application-decision-message.ts:187-195 | verdict and reviewer are not recovered: messages differing only in them decode alike |
| DecisionMessage.DecodeReadsFirstEmbedOnly | src/views/application/minecraft-application-decision-message.ts:216-219 | later embeds and the controls never change the decoded result |
| DecisionMessage.LastValueInsertOther | src/views/application/minecraft-application-decision-message.ts:228-234 | inserting a field of another name anywhere leaves the scanned value of a name unchanged |
| DecisionMessage.DecodeIgnoresOtherFields | src/views/application/minecraft-application-decision-message.ts:228-234 | a field whose name is none of the five decoded names, anywhere in the first embed, never changes the decoded result |
| DecisionMessage.MissingFieldFails | src/views/application/minecraft-application-decision-message.ts:236-245 | an absent or empty last value of a decoded name, or an absent or empty description, fails with the missing-fields error |
| DecisionMessage.AllPresentSucceeds | src/views/application/minecraft-application-decision-message.ts:236-254 | a first embed with a non-empty description and a non-empty last value under every decoded name decodes successfully |
| DecisionMessage.ParseErrorsDistinct | src/views/application/minecraft-application-decision-message.ts:216-245 | the no-embed error and the missing-fields error carry different texts |
| RejectReasons.DenyReasons | src/views/application/minecraft-application-decision-message.ts:120-176 | the catalog constant has 13 entries, starting with "underage" and ending with "invalid_age"; the lemmas below state coverage, distinctness and order |
| RejectReasons.CodeInjective | src/views/application/minecraft-application-decision-message.ts:100-113 | distinct reasons have distinct string codes |
| RejectReasons.CatalogValues | src/views/application/minecraft-application-decision-message.ts:120-176 | the catalog's reasons in array order |
| RejectReasons.DenyReasonsCoverAll | src/views/application/minecraft-application-decision-message.ts:120-176 | the catalog has 13 entries and lists every reason of the type union |
| RejectReasons.DenyReasonsDistinct | src/views/application/minecraft-application-decision-message.ts:120-176 | no reason is listed twice and the entries' codes are pairwise distinct |
| RejectReasons.DenyReasonsOrder | src/views/application/minecraft-application-decision-message.ts:164-175 | catalog order is array order: "other" (index 10) precedes "other_bannable" and "invalid_age" |
| RejectReasons.DescriptionsOf | src/views/application/minecraft-application-decision-message.ts:178-180 | the keys of the map filled from a list of entries are exactly the reasons the entries list |
| RejectReasons.DenyReasonDescriptions | src/views/application/minecraft-application-decision-message.ts:115-180 | the loaded reverse map has a key for every reason and maps each catalog entry's reason to that entry's label |
| RejectReasons.BuildDescriptions | src/views/application/minecraft-application-decision-message.ts:178-180 | the module-load loop yields the map obtained by setting each entry's reason to its label in order |
| RejectReasons.DescriptionsOfDistinct | src/views/application/minecraft-application-decision-message.ts:178-180 | for entries with distinct reasons the map has exactly one key per entry, mapped to that entry's label |
| RejectReasons.DenyReasonDescriptionsExact | src/views/application/minecraft-application-decision-message.ts:115-180 | after loading, the reverse map's keys are the catalog's reasons, 13 of them |
| Commands.Upsert | src/controllers/commands/commands.ts:12-14 | the command becomes the entry for its name, every other entry is unchanged, existing names keep their place in insertion order, and the table invariant is kept |
| Commands.UpsertSameNameTwice | src/controllers/commands/commands.ts:12-14 | registering two commands with one name leaves one entry, the later, in the first one's place |
| Commands.Jsons | src/controllers/commands/commands.ts:26-28 | the collected body has one description per name visited, the i-th being that of the command filed under the i-th name |
| Commands.Payload | src/controllers/commands/commands.ts:24-32 | the body lists, in insertion order, the description of the command filed under each name, which carries that name |
| Commands.PayloadExact | src/controllers/commands/commands.ts:24-32 | the body holds exactly one description per registered name, from its latest registration, in first-insertion order, with distinct names; it is empty only for an empty table |
| Commands.CommandCollection.constructor | src/controllers/commands/commands.ts:10 | the registry starts empty |
| Commands.CommandCollection.Use | src/controllers/commands/commands.ts:12-14 | the new table is `Upsert` of the old one |
| Commands.CommandCollection.Handle | src/controllers/commands/commands.ts:15-23 | an unknown name runs nothing and sends nothing; a handler that throws before any reply gets exactly one "Internal server error" reply; a thrown error after a reply, or a normal return, gets none |
| Commands.CommandCollection.Register | src/controllers/commands/commands.ts:24-38 | an empty table fails with the no-commands error (text "no commands to register to guild.") and no request; otherwise exactly one request to the guild-commands route of (clientId, guildId) with the token, whose body is `Payload` of the unchanged table |

## Left out

- The chat library's builders, `Message` and `User` are replaced by plain datatypes; their own validation (length limits and the like) is not modelled.
- The encoder's message options and the message the decoder reads back from the platform are one `Message` datatype, so `RoundTrip` takes the platform's send-and-fetch step to be the identity.
- `new URL(...)` parsing and normalisation: the picture URL is plain string concatenation.
- Concrete colour values: `Color` is an enum of the four colours used.
- The auto-review classifier and the origin of the application record are inputs. The application is taken to have just the six text fields.
- The REST client, the token handling and the network `put` are not performed; `Register` returns the request instead.
- Commands.CommandCollection.Handle: the handler is called without `await`, so a rejected promise escapes the `catch`, and the reply is not awaited either. Only synchronous outcomes are modelled.
- The process-wide static map is an instance field of `CommandCollection`.
- The reverse lookup map is keyed by the `RejectReason` datatype, not by the code string. The two are one-to-one (`CodeInjective`, `DenyReasonsCoverAll`), and `SelectedOptionDescribed` links each selector value string to its key.
- The reply-and-error log is not kept across calls. `Handle` returns the reply it would send.
