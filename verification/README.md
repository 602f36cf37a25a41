# Pension chat backend: the dialogue turn, modelled in Dafny

This project models the per-turn logic of a pension-planning chat backend.
Each `POST /chat` turn does the following:

- strips the message;
- answers the session-opening command `__INIT__` with a greeting;
- refuses an empty message;
- handles a one-step "offer tips" state kept in the profile's `pending_action`;
- otherwise extracts facts (region, age, income, retirement age, risk, PRSI years) from the message into the user's profile;
- assembles the request for the language model: a system message with the tone instruction and a profile summary, the recent history, then the message;
- falls back to fixed apologies when the model call fails;
- appends the message and the reply to the history;
- sets the pending offer when the reply offers tips.

The model is functional. The database is an immutable `Store` value: a profile map keyed by user id, the users' names, and an append-only history log whose positions stand for timestamp order. The language model is a function parameter `complete: seq<Message> -> Completion`. A turn is a pure function `Dialogue.Chat(store, request, complete)` that returns the response, the new store and the request sent to the model, if any.

Modules, leaves first:

- `Wrappers`: `Option`.
- `Text`: Python's `strip`, `lower`, `in` on strings, `\s`/`\w`/`\b`, `int()` on digit runs, `str(n)` and the `{n:,}` thousands format.
- `Profiles`: the profile record and the `setattr` write of one attribute.
- `Memory` (memory.py): `get_user_profile`, `save_user_profile`, `save_chat_message` and `get_chat_history`, the last both as a function and as a loop-based method.
- `Extraction` (main.py `extract_user_data`): each regular expression becomes a deterministic scanner with the same leftmost-match and backtracking outcome as `re.search`, followed by the same range gates and the same order of saves.
- `Engine` (gpt_engine.py): `format_user_context`, the tone table, the system message, the `__INIT__` greeting, the ordered message list, and `get_gpt_response` with its fallback.
- `Dialogue` (main.py `chat`): the turn and its state machine.
- `Export`: the three-pass HTML escaping of history messages in the PDF report.

The long fixed texts (the tips reply, the apologies, the tone instructions, the greeting sentences) are written as concatenations of short literals, which keeps them cheap for the verifier; each concatenation spells exactly the text in the code.

The model keeps the behaviour the code has, also where the code's own comments suggest something else:

- The bare-number PRSI fallback is applied whatever the previous assistant message asked. The comment at main.py:237 only proposes such a context check.
- The comment at main.py:80 says the pending action is cleared. But the "clear" saves `None`, and `save_user_profile` ignores `None` (memory.py:20). So the offer is never consumed and stays pending after any answer: see `Dialogue.ClearOffer`, `Dialogue.AcceptedOffer` and `Dialogue.DeclinedOffer`.
- The comments at main.py:76-77 and main.py:145-146 expect profiles to have a `pending_action` attribute, but the profile table in models.py declares no such column. The model keeps that as the store flag `pendingColumn`: `Dialogue.WithoutColumnNoOffer` shows that without the column no offer is ever pending.

Two further points where the model follows the code literally:

- A region mention overwrites the stored region on every message (main.py:172-180); it is not set only once.
- The offer phrases are exactly the three at main.py:149: "would you like tips" (with no question mark), "improve your pension?" and "boost your pension?".

## Model

| member | source | states |
|---|---|---|
| Text.Strip | main.py:56 | the stripped message is a slice of the message, and neither end of it is whitespace |
| Text.StripCutsSpaces | main.py:56 | everything `strip` cuts off, before and after that slice, is whitespace |
| Text.StripIdempotent | gpt_engine.py:163 | stripping the already stripped message again changes nothing, so the engine sees `__INIT__` exactly when the handler did |
| Text.Lower | main.py:57 | lower-casing keeps the length and maps each character on its own (ASCII letters to lower case, all else unchanged) |
| Text.LowerIsLowerCase | main.py:169 | a lower-cased message has no upper-case letter, and lower-casing a lower-case text is the identity |
| Text.ParseDecimal | gpt_engine.py:141 | `int()` of the decimal rendering of a natural number gives the number back |
| Text.IntToString | gpt_engine.py:141 | `str(n)` is the decimal rendering, with a minus sign before the rendering of `-n` for negative `n` |
| Text.GroupedRoundTrip | gpt_engine.py:144 | removing the commas from `{n:,}` gives the plain decimal rendering of `n` |
| Text.ThousandsReadsBack | gpt_engine.py:144 | the `{n:,}` rendering of an income, commas removed, is all digits and reads back as the income |
| Text.RemoveChar | main.py:192 | `msg.replace(",", "")` leaves no comma and never lengthens the text |
| Profiles.EmptyProfile | memory.py:15-16 | a newly created profile is valid and has every column unset |
| Profiles.Assign | memory.py:20-21 | a `None` write changes nothing; any other value, 0 and "" included, is stored in the named attribute; a `pending_action` value is kept only when the record has that attribute; every other attribute keeps its value |
| Memory.SaveUserProfile | memory.py:11-29 | after a save the user's row exists (created all-unset if missing); `None` leaves the row as it was; another value is stored in its column; other columns, other users and the history are unchanged |
| Memory.SaveChatMessage | memory.py:32-50 | a message with an empty user id, role or content is dropped; otherwise exactly that row is appended and nothing earlier changes |
| Memory.UserLog | memory.py:61-62 | a user's history holds only that user's rows and is never longer than the log |
| Memory.UserLogRows | memory.py:61-62 | a row is in a user's history exactly when it is in the log and belongs to that user |
| Memory.UserLogConcat | memory.py:61-62 | the history of a log extended by new rows is the old history followed by the new rows of that user |
| Memory.SaveChatMessageIsolation | memory.py:37-43 | appending a message for one user leaves every other user's history unchanged and extends that user's history by exactly the new row |
| Memory.GetChatHistory | memory.py:53-71 | an empty user id gives []; otherwise the result is the last `min(limit, n)` of the user's `n` rows, oldest first, all of that user |
| Memory.ReverseTakeReverse | memory.py:61-71 | reading the newest `limit` rows in descending order and reversing them is the same as keeping the last `limit` rows in ascending order |
| Memory.QueryChatHistory | memory.py:53-71 | the loop that scans the log newest first, keeps at most `limit` of the user's rows and reverses them returns exactly `GetChatHistory` |
| Extraction.Leftmost | main.py:183 | `re.search` returns the match at the first position where the pattern matches, and nothing when no position matches |
| Extraction.AgeAt | main.py:183 | an age match at a position is a number below 100 (one or two digits) |
| Extraction.IncomeSuffix | main.py:192 | after the amount's digits, the optional space and `k` give the amount or the amount times 1000 |
| Extraction.IncomeAtWith | main.py:192 | an income match starts at a currency symbol and is non-negative; with the leading `\b` as written it needs a word character right before the symbol |
| Extraction.RetireKeywordEnd | main.py:202 | a keyword match is "retire" or "retirement" at the position, with a word boundary on both sides, and ends right after the keyword; "retire" standing as a whole word always matches |
| Extraction.LazyTwoDigits | main.py:202 | the lazy gap yields the first standalone two-digit number from the position on, provided no newline comes before it; otherwise nothing |
| Extraction.RetirementPhraseAt | main.py:202 | in "retire at NN", with a non-word character or nothing before "retire", the pattern matches where "retire" starts, with the value NN |
| Extraction.RetirementPhrase | main.py:202 | "retire at NN" after digit-free text ending in a non-word character (or at the start) gives the retirement age NN: any earlier keyword match reads the same two digits |
| Extraction.UnitEnd | main.py:228 | the PRSI unit is one of "years", "year", "yrs", "yr", so it starts with `y` |
| Extraction.PrsiAt | main.py:228 | an explicit PRSI match is a one- or two-digit number |
| Extraction.BareNumber | main.py:234-235 | the fallback matches exactly when the stripped message is one or two digits, and then gives the number those digits spell |
| Extraction.Gate | main.py:186 | a value passes a range gate exactly when it is present and within the bounds, and then it is unchanged |
| Extraction.ExtractFacts | main.py:165-240 | the region found is "Ireland" or "UK", an age is in [18, 100], an income is non-negative, a retirement age is in [50, 80], a risk is "Low", "High" or "Medium", and PRSI years are below 100 |
| Extraction.SaveIfFound | main.py:193-197 | a found value is saved into its column of the user's row; a missing one issues no save; other users and the history are unchanged |
| Extraction.FactWrites | main.py:173-240 | the extractor issues its six candidate saves in the code's order, each carrying the fact found for its column |
| Extraction.SaveEachFound | main.py:173-240 | the chain of saves keeps the store valid, touches no other user and no history, and keeps the row's attribute set |
| Extraction.ApplyFacts | main.py:165-244 | the extractor's saves keep the store valid and touch neither other users nor the history |
| Extraction.SaveEachFoundEffect | main.py:173-240 | after the saves from the `k`-th on, every column holds its found fact, or what it held before when nothing was found |
| Extraction.ApplyFactsEffect | main.py:173-240 | after extraction every column holds the fact found in the message if there is one, and its previous value otherwise |
| Extraction.ApplyFactsColumns | main.py:173-240 | the same, column by column, and `pending_action` and the attribute set are never touched by extraction |
| Extraction.RegionRule | main.py:173-180 | a mention of "ireland" stores "Ireland" even if "uk" also occurs and whatever was stored before; otherwise "uk" or "united kingdom" stores "UK"; with no mention the region is kept |
| Extraction.RiskRule | main.py:211-223 | without "risk" the risk is kept; with it, "low" wins over "high", which wins over "medium"/"moderate" |
| Extraction.NumberRules | main.py:183-208 | age and retirement age are replaced only by a found value inside [18, 100] and [50, 80] respectively; a found income always replaces the stored one |
| Extraction.ExtractionGates | main.py:183-240 | any changed age is in [18, 100], any changed retirement age in [50, 80], any changed income non-negative, and any changed PRSI count below 100, and at most 60 unless the explicit pattern matched |
| Extraction.ExplicitPrsiRule | main.py:228-233 | an explicit "N years of PRSI/contributions" match is stored as found, with no range check, in preference to the bare-number fallback |
| Extraction.NoPrsiMatchWithoutY | main.py:228 | a text without the letter `y` never matches the explicit PRSI pattern |
| Extraction.BareNumberRule | main.py:234-240 | a message that is just one or two digits sets the PRSI years when the number is at most 60 and leaves them otherwise, whatever the conversation |
| Extraction.AgePhraseAt | main.py:183 | in "N years old" the age pattern matches right at the digits, with value N |
| Extraction.AgePhrase | main.py:183-187 | "N years old" with one or two digits, after digit-free text ending in a non-word character, is found with age N |
| Extraction.PrsiPhraseAt | main.py:228 | in "N years of prsi" the explicit PRSI pattern matches right at the digits, with value N |
| Extraction.PrsiPhrase | main.py:228-231 | "N years of prsi" after digit-free text is found with N years, whatever N is |
| Extraction.IncomeThousandsAt | main.py:192-196 | a currency symbol, digits, then `k` at the end of the text matches with the amount times 1000 |
| Extraction.IncomeThousands | main.py:192-196 | "€Nk" after currency-free text is read as N thousand by the corrected income pattern |
| Extraction.AsWrittenMissesSymbolAfterNonWord | main.py:192 | with the leading `\b` as written, a currency symbol at the start or after a non-word character never matches |
| Extraction.IntendedFindsSymbol | main.py:192 | without that `\b`, the same symbol followed by digits is found with those digits as the amount |
| Extraction.IncomeAfterNonWord | main.py:192 | "…income €60000"-style text: the corrected pattern finds the amount and the pattern as written finds nothing |
| Engine.CurrencySymbol | gpt_engine.py:143 | the income currency is `£` exactly when the region is "UK", and `€` otherwise, unset region included |
| Engine.SummaryContents | gpt_engine.py:139-148 | the summary entries come in the fixed order region, age, income, retirement, risk, PRSI; each text or number column appears exactly when truthy (so 0 and "" are left out); PRSI years appear exactly when set, 0 included; each entry carries its column's value and the income its currency |
| Engine.SummaryEmptyExactly | gpt_engine.py:139-151 | the summary is empty exactly when no column is truthy and PRSI years are unset |
| Engine.FormatUserContext | gpt_engine.py:136-153 | no profile gives the "No profile information" line; a profile with no entries gives the "No specific details" line; otherwise "User Profile Summary: " followed by the entries joined by "; " |
| Engine.IncomeLineReadsBack | gpt_engine.py:142-144 | the income entry is "Income: " and the currency symbol followed by a comma-grouped amount that reads back as the stored income |
| Engine.ToneInstruction | gpt_engine.py:179-189 | the tone instruction is non-empty exactly for the codes "7", "14", "adult", "pro", "genius"; any other code gives the default voice |
| Engine.ToneTableInjective | gpt_engine.py:179-189 | different tone codes give different instructions |
| Engine.SystemMessage | gpt_engine.py:179-191 | the tone instruction of the given tone code stands at both placeholders of the prompt, right after its first and its second segment; the message ends with a blank line followed by the profile summary |
| Engine.DisplayName | gpt_engine.py:157-161 | the greeting name is the user's stored name when it is set and non-empty, and "there" otherwise |
| Engine.InitGreeting | gpt_engine.py:157-172 | a user with a profile is welcomed back by display name (the stored name, or "there") with the profile summary quoted; a user without one gets "Hello " and the display name, ending with the region question |
| Engine.Forwarded | gpt_engine.py:196-200 | only history rows with role user or assistant are forwarded, never more rows than stored |
| Engine.ForwardedConcat | gpt_engine.py:196-200 | filtering the history distributes over concatenation, so the forwarded rows keep their original order |
| Engine.ForwardedKeepsValid | gpt_engine.py:196-198 | a history whose rows all have role user or assistant is forwarded whole, row by row |
| Engine.ForwardedDropsInvalid | gpt_engine.py:199-200 | a row with any other role is dropped and its neighbours are forwarded around it |
| Engine.BuildMessages | gpt_engine.py:195-202 | the request is one system entry, then the forwarded history, then the user's message, and no other entry is a system entry |
| Engine.EngineReply | gpt_engine.py:155-218 | `__INIT__` (after stripping) is answered with the greeting and sends nothing; any other input sends the request of `EngineRequest`, unless the engine fails before the call, and then it raises with nothing sent; a failed client call gives the engine's apology; a successful one gives the model's text |
| Engine.EngineRequest | gpt_engine.py:174-202 | the request has the system message built from the current profile and tone first, then at most 10 forwarded history rows, then the input last |
| Dialogue.Record | main.py:139-142 | the user's message is appended before the reply; an empty reply is not appended; with an empty user id nothing is appended |
| Dialogue.MarkOffer | main.py:147-154 | setting the offer keeps the store valid and changes neither history nor other users |
| Dialogue.ReplyText | main.py:129-136 | the reply is the engine's answer, or the handler's apology when the engine raises |
| Dialogue.ClearOffer | main.py:81 | the "clear" of a pending offer on an existing row leaves the store exactly as it was |
| Dialogue.AcceptOffer | main.py:92-115 | the accepted offer returns the fixed tips, sends nothing to the model, only appends to the history and leaves every profile, `pending_action` included, as it was |
| Dialogue.Conclude | main.py:129-155 | the end of the standard flow responds with the engine's reply or the apology and keeps the store valid and other users unchanged |
| Dialogue.StandardFlow | main.py:117-162 | the standard flow always replies, keeps the store valid, only appends to the history and never changes another user's profile |
| Dialogue.Respond | main.py:73-162 | a non-empty ordinary message always gets a reply; the store stays valid, the history only grows and no other user's profile changes |
| Dialogue.Chat | main.py:53-162 | `__INIT__` gets the greeting with nothing stored; exactly the empty messages are refused, with nothing stored; every turn keeps the store valid, only appends to the history and leaves other users' profiles alone |
| Dialogue.InitTurn | main.py:61-67 | the session-opening turn answers with the engine's greeting whatever the model would say, stores nothing and sends nothing to the model |
| Dialogue.AcceptedOffer | main.py:78-115 | an affirmative answer to a pending offer gets the fixed tips whatever the model would say; the history gains exactly the answer then the tips; no profile changes, so the offer stays pending |
| Dialogue.DeclinedOffer | main.py:78-89 | any other answer to a pending offer takes the standard flow, and the offer is still pending afterwards |
| Dialogue.StandardKeepsOffer | main.py:117-155 | a pending offer survives the standard flow, whatever the message and the reply |
| Dialogue.StandardRequest | main.py:121-131 | the request is built from the profile as updated by this very message, with the history from before this turn, and with the message last; it is sent exactly when the engine does not fail before the call, and otherwise nothing is sent |
| Dialogue.StandardReply | main.py:129-136 | the reply is the model's text; the engine's apology when the client call fails; the handler's apology, with nothing sent, when the engine raises before the call |
| Dialogue.StandardLog | main.py:139-142 | the history gains the user's message, then the reply unless it is empty, and nothing else |
| Dialogue.ConcludePending | main.py:146-155 | `pending_action` becomes the offer exactly when the profile exists with the attribute and the reply contains an offer phrase; otherwise it is unchanged; no other column changes |
| Dialogue.StandardPending | main.py:121-155 | over the standard flow the profile columns are those extraction left, and `pending_action` is set by an offering reply or else kept |
| Dialogue.RespondPending | main.py:78-155 | after an ordinary message `pending_action` either keeps its value or becomes the offer because the reply offers tips |
| Dialogue.PendingOnlyFromOffer | main.py:78-155 | over any turn, `pending_action` either keeps its value or becomes the offer because the reply offers tips; no turn clears a pending offer |
| Dialogue.RecordIsolation | main.py:139-142 | storing a message and its reply leaves every other user's history unchanged |
| Dialogue.RespondRecords | main.py:111-142 | whichever branch answers, the history gains exactly the message and the reply, as `Record` stores them |
| Dialogue.OtherUsersUntouched | main.py:53-162 | a turn changes neither the profile nor the history of any other user |
| Dialogue.StandardOffers | main.py:128-154 | a reply offering tips, to a user whose profile has the attribute, is returned and leaves the offer pending |
| Dialogue.OfferThenAccept | main.py:78-155 | a user with a stored profile who gets an offering reply and then answers "yes" gets the fixed tips without a model call, and the offer is still pending after that |
| Dialogue.NoColumnNoPending | main.py:147-157 | in a valid store whose profiles lack the attribute, no user has a pending action |
| Dialogue.WithoutColumnNoOffer | main.py:147-156 | when profiles have no `pending_action` attribute, no offer is ever pending and the tips shortcut is never taken |
| Export.ReplaceChar | main.py:362 | replacing a character with a text that does not contain it leaves none of it |
| Export.Escape | main.py:362 | the escaped message contains no `<` or `>` and is never shorter than the message |
| Export.EscapeChars | main.py:362 | escaping each character on its own leaves no `<` or `>` |
| Export.EscapeIsCharwise | main.py:362 | because `&` is replaced first, the three passes never re-escape an entity: they escape character by character |
| Export.EscapeRoundTrip | main.py:362 | decoding the three entities in the escaped message gives the message back exactly |

## Left out

- HTTP transport, CORS and the request schema. The 400 error is the response `BadRequest`.
- SQLAlchemy sessions, commits and rollbacks. A failed commit or query (memory.py:23-29, 44-50, 66-68) is not modelled: every store operation succeeds.
- The OpenAI client (gpt_engine.py:206-211). It is the parameter `complete`. For the prepared request it gives a text, a client error (caught by the engine at gpt_engine.py:213-215), or `EngineError`. `EngineError` stands for a failure inside `get_gpt_response` before the call: the profile, user or history reads (gpt_engine.py:157-160, 175) or the list building (gpt_engine.py:196-200). That error escapes to the handler (main.py:133-136), and nothing is sent.
- The wording of the system prompt (gpt_engine.py:21-132). `Engine.PromptSegments` holds three opaque parts around the two `{{tone_instruction}}` placeholders.
- Logging, the PDF rendering and the sign-in upsert (main.py:247-381), except the escaping at line 362.
- Concurrent turns and races on the same user.
- History rows are records. The ORM object versus dict subscripting mismatch (gpt_engine.py:197) is not modelled.
- The tips fallback reply (main.py:106-109) is not modelled. Building the fixed tips string cannot raise, so that branch is unreachable.
- An exception inside `extract_user_data` (main.py:125-126) is not modelled, since the scanners are total. A failing profile re-read (main.py:124) would leave `profile` stale; that is not modelled either.
- Text.Lower: lower-cases ASCII letters only, while Python's `str.lower` also maps other letters.
- Text.IsWordChar: `\w` is restricted to ASCII letters, digits and `_`, while Python's `\w` on `str` also accepts other Unicode letters and digits.
- Text.IsDigit: `\d` is restricted to ASCII digits, while Python's `\d` also accepts other Unicode decimal digits.
- Memory.GetChatHistory: `limit` is a natural number. The negative limit SQL would treat as "no limit" is not modelled.
- Memory.GetChatHistory: log position stands for timestamp order, so timestamps are taken to be distinct and increasing in insertion order. In the code, `timestamp` is `datetime.utcnow()` (models.py:36). Two rows saved within one clock tick, such as a message and its reply (main.py:140-142), tie under `order_by(desc(timestamp))` (memory.py:63-64). The database may then return them in either order, or `limit` may cut a different row; that is not modelled.
- Dialogue.OfferThenAccept: the first turn's model is a constant oracle that always returns the same offering text.
- Extraction.IncomeMatch: the extractor uses the corrected income pattern, without the leading `\b`. The pattern as written is `Extraction.IncomeMatchAsWritten` (see Findings).

## Findings

| source | as written | input that shows it | evidently intended | confidence | as-written member | corrected member |
|---|---|---|---|---|---|---|
| main.py:192 | the income pattern starts with `\b` before `(?:€\|£)`; since neither symbol is a word character, `\b` there demands a word character right before the symbol | "I'm in Ireland, 45 years old, income €60000" (the space before `€` makes the match fail, so no income is stored) | a currency symbol followed by an amount is matched wherever it stands, giving 60000 | high, not executed | Extraction.IncomeAfterNonWord | Extraction.IncomeMatch |
