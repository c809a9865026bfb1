# NUBot: the notice-to-mail pipeline, modelled and proved in Dafny

`NUBot` (in `nu_bot/_nu_news_bot.py`) reads the examination-notice page of
National University, Bangladesh. It keeps the first ten notices. It drops
those recorded by the previous run, cleans the recipient rows of a
spreadsheet and mails one message per recipient, but only when there is
both a new heading and a new link (line 27): a new heading alone sends
nothing.
It then saves the full extraction as the next run's baseline.

This project models the logic between the I/O calls:

- the extraction step (`get_news`);
- the two novelty filters (`is_new_news`);
- recipient cleaning (`add_user`, `get_recipients`);
- the message text (`get_message`);
- the run decision of `init`;
- what `add_new_news` saves.

The modules are:

- `Text` (`text.dfy`): strings, and `str.strip()` with Python's whitespace set.
- `Novelty` (`novelty.dfy`): the order-preserving filter `[x for x in xs if x not in prev]`.
- `Extraction` (`extraction.dfy`): what `get_news` takes from each selected anchor.
- `Recipients` (`recipients.dfy`): which sheet rows `add_user` stores, and in what form.
- `Composer` (`composer.dfy`): the intro, the `zip`-based body and the whole message text.
- `Bot` (`bot.dfy`): the `NUBot` class itself, with its methods, and lemmas about whole runs.

Python keeps `new_headings`, `new_links`, `user_info` and `bot_info` as
class attributes. Every instance therefore appends to the same lists, and
repeated calls accumulate. The model keeps these four in a `ClassAttrs`
object that each `NUBot` holds in its `shared` field, so the methods'
`modifies` clauses show which state is shared. `news_headings` and
`news_links` become instance attributes at the first `is_new_news`, so they
are fields of `NUBot`. A call of `send_mail` is an event: the message is
appended to the `outbox` field.

The method contracts state each new state outright in terms of
specification functions:

- `Headings`/`Links` of `Top(anchors)` for the extraction;
- `Novel` for the filters;
- `Accepted` for the recipients;
- `Letters` for the messages.

Lemmas state what those functions guarantee: order, membership, counts,
emptiness conditions, alignment and the truncation of `zip`.

Three behaviours of the code that the model keeps as they are:

- `add_user` tests the raw fields and strips afterwards, so a name of `" "`
  is accepted and stored as `""` (`nu_bot/_nu_news_bot.py:96-98`,
  `Recipients.BlankNameAccepted`).
- The success value of `execution_result` is `New news found`, with no
  period (line 32).
- Recipients are fetched on every run, before the decision to send (line
  26), which `Bot.NUBot.Init` states.

## Model

| member | source | states |
|---|---|---|
| Text.IsSpaceListed | nu_bot/_nu_news_bot.py:63 | the whitespace set of `IsSpace`, which `strip` removes, is exactly the 29 characters Python's `str.isspace` accepts, listed one by one |
| Text.Strip | nu_bot/_nu_news_bot.py:63 | the stripped text is never longer than the input, and is empty or neither starts nor ends with a whitespace character |
| Text.StripIsMiddle | nu_bot/_nu_news_bot.py:63 | the input is some whitespace, then the stripped text, then some whitespace: strip removes only whitespace, and only at the ends |
| Text.StripEmptyIff | nu_bot/_nu_news_bot.py:63 | stripping yields the empty string exactly when the text is all whitespace |
| Text.StripIdempotent | nu_bot/_nu_news_bot.py:63 | stripping twice is stripping once |
| Extraction.Top | nu_bot/_nu_news_bot.py:61 | `[:10]` keeps at most ten anchors: exactly min(10, n), and they are the first ones, in order |
| Extraction.HrefText | nu_bot/_nu_news_bot.py:64 | the rendered `href` is the text `None` exactly when the anchor has no `href` or its `href` is literally `None`, so the two cannot be told apart |
| Extraction.Heading | nu_bot/_nu_news_bot.py:63 | the heading of an anchor is empty exactly when its text is all whitespace |
| Extraction.Link | nu_bot/_nu_news_bot.py:64 | a link is the site root `https://www.nu.ac.bd/` followed by the `href` text exactly as written (`None` when absent) |
| Extraction.Headings | nu_bot/_nu_news_bot.py:65 | one heading is appended per anchor |
| Extraction.Links | nu_bot/_nu_news_bot.py:66 | one link is appended per anchor |
| Extraction.HeadingsAt | nu_bot/_nu_news_bot.py:63-65 | heading i is the stripped text of anchor i |
| Extraction.LinksAt | nu_bot/_nu_news_bot.py:64-66 | link i is the site root followed by the href of anchor i |
| Extraction.ExtractionAligned | nu_bot/_nu_news_bot.py:61-66 | one extraction gives two lists of equal length, at most ten, whose entry i both come from page anchor i |
| Extraction.ExtractionIgnoresTail | nu_bot/_nu_news_bot.py:61 | anchors after the tenth never change the extraction |
| Extraction.LinksStartWithRoot | nu_bot/_nu_news_bot.py:64 | every extracted link starts with the site root |
| Extraction.ExtractionSnoc | nu_bot/_nu_news_bot.py:62-66 | one more anchor appends its heading and its link, in lockstep |
| Extraction.ExtractionPrefixStep | nu_bot/_nu_news_bot.py:62-66 | one more iteration of the extraction loop appends the next anchor's heading and link |
| Novelty.Novel | nu_bot/_nu_news_bot.py:71-74 | the filtered list is no longer than its input; every entry is an input item not in the record; every input item not in the record is kept |
| Novelty.NovelIsSubsequence | nu_bot/_nu_news_bot.py:71-72 | the filter keeps the extraction order: its result is a subsequence of its input |
| Novelty.NovelCounts | nu_bot/_nu_news_bot.py:71-72 | duplicates are kept: an unrecorded item occurs as often as in the input, and a recorded item not at all |
| Novelty.NovelEmptyIff | nu_bot/_nu_news_bot.py:71-72 | nothing is new exactly when every extracted item is in the record |
| Novelty.NovelIdempotent | nu_bot/_nu_news_bot.py:71-72 | filtering the result again against the same record changes nothing |
| Novelty.NovelAppend | nu_bot/_nu_news_bot.py:71-72 | the filter distributes over concatenation of its input |
| Novelty.NovelAgainstItself | nu_bot/_nu_news_bot.py:71-74 | against a record of the same items, nothing is new |
| Recipients.IsComplete | nu_bot/_nu_news_bot.py:96 | the raw test refuses only rows that are blank once stripped: every refused row has a field that strips to nothing |
| Recipients.Clean | nu_bot/_nu_news_bot.py:98 | the stored name and address are already stripped: stripping them again changes nothing |
| Recipients.Accepted | nu_bot/_nu_news_bot.py:79-80 | no more users are stored than rows were given |
| Recipients.Admit | nu_bot/_nu_news_bot.py:96-98 | one row adds at most one user |
| Recipients.AcceptedSnoc | nu_bot/_nu_news_bot.py:79-80 | one more row appends what `add_user` makes of it |
| Recipients.AcceptedPrefixStep | nu_bot/_nu_news_bot.py:79-80 | one more iteration of the recipient loop appends what `add_user` makes of the next row |
| Recipients.AcceptedAppend | nu_bot/_nu_news_bot.py:79-80 | the users of two batches of rows are the first batch's users followed by the second's |
| Recipients.AcceptedMembers | nu_bot/_nu_news_bot.py:96-98 | every complete row is stored in stripped form, and every stored user is the stripped form of a complete row |
| Recipients.AcceptedEmptyIff | nu_bot/_nu_news_bot.py:96-98 | nobody is stored exactly when no row has both raw fields non-empty |
| Recipients.BlankNameAccepted | nu_bot/_nu_news_bot.py:96-98 | a row named `" "` passes the check and is stored with the empty name, which the same check would refuse |
| Composer.Intro | nu_bot/_nu_news_bot.py:103 | the intro begins `Dear <name>,` |
| Composer.Block | nu_bot/_nu_news_bot.py:105 | a block begins with the heading, ends with the link and three newlines, and has text between them |
| Composer.Zip | nu_bot/_nu_news_bot.py:105 | `zip` has the shorter list's length, and pair i is entry i of both lists |
| Composer.Join | nu_bot/_nu_news_bot.py:104-105 | the joined text is empty exactly when there are no pairs |
| Composer.Body | nu_bot/_nu_news_bot.py:104-105 | the body is empty exactly when either novelty list is |
| Composer.Content | nu_bot/_nu_news_bot.py:112 | the message text begins `Dear <name>,` and ends with the body |
| Composer.BodyStep | nu_bot/_nu_news_bot.py:104-105 | the body is the first heading's block with the first link, then the body of the rest; it is empty once either list is |
| Composer.BodyTruncates | nu_bot/_nu_news_bot.py:105 | the body of two lists equals the body of both cut to the shorter length |
| Composer.BodyExampleThreeHeadingsOneLink | nu_bot/_nu_news_bot.py:105 | three new headings and one new link give exactly one block |
| Bot.HasNews | nu_bot/_nu_news_bot.py:27 | the send guard holds exactly when the message body would be non-empty |
| Bot.Letters | nu_bot/_nu_news_bot.py:28-30 | the send loop produces one message per user |
| Bot.LettersSnoc | nu_bot/_nu_news_bot.py:28-30 | one more user appends that user's message |
| Bot.LettersPrefixStep | nu_bot/_nu_news_bot.py:28-30 | one more iteration of the send loop appends the message for the next user |
| Bot.LettersAt | nu_bot/_nu_news_bot.py:28-30 | message i goes to user i's address, greets user i by name and ends with the body of the novelty lists |
| Bot.ClassAttrs.constructor | nu_bot/_nu_news_bot.py:12-17 | the class-level lists and dictionary start empty |
| Bot.NUBot.constructor | nu_bot/_nu_news_bot.py:19-21 | a bot holds the previous run's headings and links and has sent nothing |
| Bot.NUBot.Init | nu_bot/_nu_news_bot.py:23-34 | the extraction is appended and refiltered; the recipients are appended on every run; the users' messages are sent, in order, iff both novelty lists are non-empty, otherwise nothing is sent; `execution_result` records which case it was |
| Bot.NUBot.NotifyAll | nu_bot/_nu_news_bot.py:28-31 | the loop sends one message per stored user, in order, and leaves the novelty lists alone |
| Bot.NUBot.GetNews | nu_bot/_nu_news_bot.py:56-67 | the extraction of the first ten anchors is appended to the shared lists, which are then refiltered; recipients, `bot_info` and sends are unchanged |
| Bot.NUBot.AppendTopTen | nu_bot/_nu_news_bot.py:61-66 | the loop appends the headings and links of the first ten anchors to the shared lists, in lockstep and in page order, and changes nothing else |
| Bot.NUBot.IsNewNews | nu_bot/_nu_news_bot.py:69-74 | the novelty lists are the two filters of the accumulated extraction against the previous run's record |
| Bot.NUBot.GetRecipients | nu_bot/_nu_news_bot.py:76-80 | the accepted users of the rows are appended in row order; the extraction and `bot_info` are unchanged |
| Bot.NUBot.AddUser | nu_bot/_nu_news_bot.py:94-98 | one stripped user is appended iff both raw fields are non-empty, otherwise nothing changes |
| Bot.NUBot.GetMessage | nu_bot/_nu_news_bot.py:100-113 | the message goes to the given address, greets the given name and ends with the body of the current novelty lists |
| Bot.NUBot.SendMail | nu_bot/_nu_news_bot.py:115-127 | the message is handed to the transport once, after all earlier ones |
| Bot.NUBot.AddNewNews | nu_bot/_nu_news_bot.py:140-142 | the saved baseline is the full accumulated extraction, not its novelty subset |
| Bot.NoMailIff | nu_bot/_nu_news_bot.py:27 | the send loop is skipped exactly when every extracted heading, or every extracted link, was already recorded |
| Bot.TwoNoticeExtraction | nu_bot/_nu_news_bot.py:61-66 | a two-notice page extracts as headings `A`, `B` and links to `a`, `b` |
| Bot.MismatchedPairing | nu_bot/_nu_news_bot.py:71-74 | because the filters are independent, the body can pair the second notice's heading with the first notice's link |
| Bot.NoveltyLengthsUntied | nu_bot/_nu_news_bot.py:71-74 | the extraction lists always have equal length, but the two novelty lists need not |
| Bot.RepeatRunIsQuiet | nu_bot/_nu_news_bot.py:23-34 | a run started from the baseline a previous run saved, on the same page, sends nothing and reports `No new news found.` |

## Left out

- Fetching the page, and the `quit()` on a malformed URL (lines 36-54): network I/O and process exit. The page is a parameter.
- HTML parsing and the `.news-item a` selector (lines 24, 61): the parser is a foreign library. Its output is a parameter: the selected anchors, each with its text and an optional `href`.
- The spreadsheet request and the environment variables (lines 82-92, 108-109): network I/O and ambient configuration. The `userInfo` rows are a parameter.
- Rows that lack a key, or hold `null` or a non-string value: the code would raise, or compare truthiness of other types. Rows are modelled as two strings, and absent or empty fields as the empty string.
- SendMail: records the hand-over only. The SMTP session, STARTTLS, login and the error prints (lines 115-127) are a network transport. The code still attempts the send after a failed login; the model does not tell failed sends from delivered ones.
- SendMail: a send never fails in the model. In the code, `send_mail` catches only `SMTPAuthenticationError` (line 122) and `SMTPRecipientsRefused` (line 126). Any other exception leaves `init`'s loop (lines 28-31): a failed connection (line 117), a failed STARTTLS (line 119), or `SMTPSenderRefused` from `send_message` (line 125), which is likely after the caught login failure. The later users then get no message and `execution_result` is never written, whereas `Bot.NUBot.Init` promises both.
- `time.sleep(5)` between sends (line 31): timing only.
- GetMessage: keeps only the recipient address and the content. The `From`, `pass` and `Subject` headers (lines 107-111) come from the environment or are constants of the mail library object.
- `get_bot_info` and `get_current_time` (lines 129-138): they depend on the clock and on `strftime`.
- AddNewNews: returns the baseline instead of writing it. The file and Python's `repr` rendering of the two lists (lines 142-144) are not modelled, so the model assumes the next run reads back exactly the lists written.
- How a run loads `prev_headings` and `prev_links` is not part of this model. They are constructor parameters.
- Text.Strip: works on Unicode code points as Dafny `char`s, which are Unicode scalar values. No encoding or normalisation is modelled.
