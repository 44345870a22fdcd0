# Smart Parenting Assistant backend: authentication, rate limiting, field encryption and nutrition input handling

This project models four pieces of the Smart Parenting Assistant FastAPI backend in Dafny, and proves properties of each model.

- **The OTP ledger** (`lib/DL/registration.py`). Signup and login both go through a six-digit one-time password (OTP). The password is mailed and expires after five minutes.
  - The `users` and `otp_verifications` collections are maps keyed by email. They are fields of the class `Registration.Ledger`.
  - The four handlers are methods of that class, and so is `generate_and_send_otp`. Each handler is proved to keep the ledger invariant, and each states its whole new state.
  - Scenario methods prove whole flows over a fresh ledger: signup then login, an expired code, and the two cross-flow hazards.
- **The rate limiter** (`lib/rate_limiter.py`). The limiter keeps a sliding window of at most two requests per 60 seconds for each authenticated email.
  - `rate_limit_cache` is a map field of `RateLimiter.Limiter`.
  - The pruning loop is proved against the specification function `Recent`.
- **Field encryption** (`lib/encryption_utils.py`). A field is stored as `base64(iv ‖ AES-CBC(PKCS#7(utf8(value))))`. Decryption re-pads base64 text whose `=` were stripped, and falls back on any failure. The pieces are:
  - base64 as in section 4 of RFC 4648;
  - UTF-8 as in RFC 3629;
  - PKCS#7 padding as in section 6.3 of RFC 5652;
  - CBC mode as in section 6.2 of NIST SP 800-38A, over an abstract block cipher.
- **Nutrition request handling** (`lib/DL/nutition.py`). This piece covers:
  - the age-indexed weight and height limit tables, built by loops at import time;
  - the age in months;
  - the three validation checks;
  - `sanitize_input`;
  - the parser that turns the model's reply into a diet plan.

Parameters stand in for everything external:
- the clock (`Instant`, in microseconds) and `random.randint` (`draw`);
- bcrypt (`Hasher`);
- JWT minting and verification (`mint`, `verifyToken`);
- MongoDB's ObjectId (`newId`);
- `os.urandom(16)` (`iv`) and the keyed AES permutation (`Cbc.BlockCipher`, with the `Inverse` predicate);
- `datetime.strptime` and `datetime.today()` (`parse`, `today`).

Python failures are values:
- `Common.Failure` is either `HttpError(status, detail)`, for an `HTTPException` the handler raises, or `Unhandled(exception)`, for a Python exception that escapes as a 500.
- `Wrappers.Outcome` and `Wrappers.Result` carry these failures.

Files:
- `wrappers.dfy`, `common.dfy`: shared types.
- `pystr.dfy`: the Python `str` operations used, with Python's semantics.
- `registration.dfy`, `rate_limiter.dfy`: the authentication core.
- `bytes.dfy`, `base64.dfy`, `utf8.dfy`, `pkcs7.dfy`, `cbc.dfy`, `field_cipher.dfy`: field encryption.
- `nutrition.dfy`, `sanitize.dfy`, `reply_parser.dfy`: nutrition request handling.

Three behaviours of the code that the model keeps as written:
- **The decryption fallback.** A failed decryption returns the input after re-padding, not the caller's input (see Findings).
- **Email delivery failures.** `send_otp_email` swallows every exception and returns `False`, and `generate_and_send_otp` ignores that result, so a failed delivery still reports "OTP sent". The `500 "Failed to send OTP email"` branch of `login_request` is reached only when the MongoDB `delete_many` or `insert_one` inside `generate_and_send_otp` raises; the model's maps cannot fail, so it has no such outcome.
- **OTP verification errors.** A missing record and a wrong code both give `400 "Invalid OTP"`, and so does `Registration.CheckOtp`.

## Model

| member | source | states |
|---|---|---|
| Registration.DecimalRoundTrip | Smart-Parenting-Assistant/lib/DL/registration.py:29 | `str(n)` read back as a number is `n`. Its length is the digit count, and it has no leading zero. |
| Registration.OtpCodeShape | Smart-Parenting-Assistant/lib/DL/registration.py:29 | Every `str(randint(100000, 999999))` is six decimal digits with a non-zero first digit, and it encodes the draw. |
| Registration.OtpCodeInjective | Smart-Parenting-Assistant/lib/DL/registration.py:29-30 | Two draws give the same code if and only if they are equal. |
| Registration.CheckOtp | Smart-Parenting-Assistant/lib/DL/registration.py:61-65 | The check passes exactly when a record exists, its code matches, and now ≤ expiry. "Invalid OTP" is given exactly for a missing record or a different code (tested before expiry). "OTP expired" is given exactly for a matching code after expiry. |
| Registration.FullLifetimeOnWholeMillisecond | Smart-Parenting-Assistant/lib/DL/registration.py:34 | A code issued on a whole millisecond expires exactly five minutes later. |
| Registration.LastMillisecondExpired | Smart-Parenting-Assistant/lib/DL/registration.py:64-65 | A code issued part-way through a millisecond is already "OTP expired" when the right code arrives exactly five minutes later, because the stored expiry was cut to the millisecond. |
| Registration.StaleCodeRejected | Smart-Parenting-Assistant/lib/DL/registration.py:30-35 | After a record is reissued, any code other than the new one fails with "Invalid OTP". |
| Registration.MalformedCodeRejected | Smart-Parenting-Assistant/lib/DL/registration.py:62-63 | A code that is not six digits without a leading zero never verifies against an issued record. |
| Registration.Ledger.constructor | Smart-Parenting-Assistant/lib/DL/registration.py:13-14 | Both collections start empty, and the ledger invariant holds. |
| Registration.Ledger.IssueOtp | Smart-Parenting-Assistant/lib/DL/registration.py:28-36 | Exactly one record remains for the email: the new code, with no staged password, expiring at now + 5 min cut to the millisecond (MongoDB keeps datetimes in milliseconds). Users are unchanged, the code is mailed, and the invariant is kept. |
| Registration.Ledger.SignupRequest | Smart-Parenting-Assistant/lib/DL/registration.py:39-57 | A registered email gets 400 "Email already registered" and nothing changes. Otherwise a code is issued and the record stages `hashpw(password, salt)`. |
| Registration.Ledger.SignupVerify | Smart-Parenting-Assistant/lib/DL/registration.py:59-72 | A failed check changes nothing. On a record without a staged hash, a KeyError is raised and nothing changes. Otherwise the user is created with the staged hash (the email was unregistered), and the record is deleted. |
| Registration.Ledger.LoginRequest | Smart-Parenting-Assistant/lib/DL/registration.py:76-99 | An unknown email, a missing or empty hash, and a wrong password all give the same 400, and nothing is issued. Otherwise a code is issued and the user's id is returned. |
| Registration.Ledger.LoginVerify | Smart-Parenting-Assistant/lib/DL/registration.py:101-119 | A failed check changes nothing. On success the record is deleted first. A missing account then raises TypeError; otherwise a token for the email is returned with the user's id. |
| Registration.SignupThenLogin | Smart-Parenting-Assistant/lib/DL/registration.py:39-119 | Signup, then a wrong code (Invalid OTP), the right code at the stored expiry, the last instant it is accepted (done), a replay (Invalid OTP), a login, and its verification (token for the new account). |
| Registration.ExpiredThenReissued | Smart-Parenting-Assistant/lib/DL/registration.py:28-65 | A late code is "OTP expired" and the record stays. After a re-signup, the old code is "Invalid OTP" and the new code completes signup. |
| Registration.CrossFlowHazards | Smart-Parenting-Assistant/lib/DL/registration.py:59-113 | A login code cannot finish a signup (KeyError). A signup code verified through login is consumed and raises TypeError, so a later signup verify is "Invalid OTP". |
| RateLimiter.BearerToken | Smart-Parenting-Assistant/lib/rate_limiter.py:13-16 | There is a token exactly when the header starts with "Bearer ". The token is the text after it, up to the next space, and holds no space. |
| RateLimiter.Authenticate | Smart-Parenting-Assistant/lib/rate_limiter.py:12-21 | A missing or non-Bearer header gives exactly 401 "Missing or invalid token". A token whose payload is `None` or empty gives exactly 401 "Invalid token". A non-empty payload without an "email" claim gives exactly the KeyError. Success means a payload with an email claim, and the result is that claim. |
| RateLimiter.SignedIn | Smart-Parenting-Assistant/lib/rate_limiter.py:12-21 | "Bearer " plus a space-free token whose payload holds an email authenticates as that email. |
| RateLimiter.Recent | Smart-Parenting-Assistant/lib/rate_limiter.py:28-30 | A timestamp is kept if and only if it was in the list and now − t < 60 s. Nothing is dropped if and only if every timestamp is recent. |
| RateLimiter.ReopensAfterWindow | Smart-Parenting-Assistant/lib/rate_limiter.py:28-33 | Once an admitted timestamp is at least 60 s old, fewer than two remain, so the next call is admitted. |
| RateLimiter.StaysFullWithinWindow | Smart-Parenting-Assistant/lib/rate_limiter.py:28-33 | A full list whose entries are all within the window loses nothing to pruning. |
| RateLimiter.Limiter.constructor | Smart-Parenting-Assistant/lib/rate_limiter.py:6 | The cache starts empty. |
| RateLimiter.Limiter.RateLimit | Smart-Parenting-Assistant/lib/rate_limiter.py:11-36 | An authentication failure changes nothing. Otherwise only the caller's entry changes: it becomes the pruned list, plus now when fewer than 2 remain (Pass); else the call gets 429 and now is not appended. Each list stays at most 2 long. |
| RateLimiter.Burst | Smart-Parenting-Assistant/lib/rate_limiter.py:8-36 | Three calls within a minute give allow, allow, 429. A call 60 s after the first is allowed, and another identity is unaffected. |
| Base64.Encode | Smart-Parenting-Assistant/lib/encryption_utils.py:13 | The encoding is 4·⌈n/3⌉ characters long. |
| Base64.Decode | Smart-Parenting-Assistant/lib/encryption_utils.py:21 | It accepts only lengths that are a multiple of 4, and yields between 3·(len/4) − 2 and 3·(len/4) bytes. |
| Base64.DecodeEncode | Smart-Parenting-Assistant/lib/encryption_utils.py:21 | Decoding an encoding gives the bytes back. |
| Base64.EncodeInjective | Smart-Parenting-Assistant/lib/encryption_utils.py:13 | Different byte strings have different encodings. |
| Utf8.DecodeEncode | Smart-Parenting-Assistant/lib/encryption_utils.py:28 | `s.encode().decode() == s` for every string. |
| Pkcs7.Pad | Smart-Parenting-Assistant/lib/encryption_utils.py:12 | It appends 1 to 16 bytes, each equal to their count, and the length becomes a multiple of 16. |
| Pkcs7.Unpad | Smart-Parenting-Assistant/lib/encryption_utils.py:28 | It succeeds only on non-empty block-aligned data, removing at most one block from its end. |
| Pkcs7.UnpadPad | Smart-Parenting-Assistant/lib/encryption_utils.py:28 | Unpadding undoes padding. |
| Cbc.DecryptEncrypt | Smart-Parenting-Assistant/lib/encryption_utils.py:11-28 | If the block cipher's decipher inverts its encipher, CBC decryption with the same IV undoes CBC encryption. |
| FieldCipher.RePad | Smart-Parenting-Assistant/lib/encryption_utils.py:17-19 | It appends only `=`, fewer than 4, to reach a multiple of 4. The text is unchanged exactly when its length is already a multiple of 4. |
| FieldCipher.Sealed | Smart-Parenting-Assistant/lib/encryption_utils.py:10-12 | The stored bytes are the IV followed by a block-aligned ciphertext of at least one block, longer than the UTF-8 value by 1 to 16 bytes. |
| FieldCipher.EncryptField | Smart-Parenting-Assistant/lib/encryption_utils.py:9-13 | The output decodes to the IV and the ciphertext. It is at least 44 characters, its length is a multiple of 4, and re-padding leaves it alone. |
| FieldCipher.Unseal | Smart-Parenting-Assistant/lib/encryption_utils.py:22-28 | Fewer than 16 decoded bytes is exactly the "too short" failure, and a misaligned ciphertext is exactly the CBC failure. Success means unpadding and UTF-8 decoding succeeded on the decryption. |
| FieldCipher.DecryptField | Smart-Parenting-Assistant/lib/encryption_utils.py:15-32 | It never raises. It returns the plaintext on success, and the re-padded input on any failure. |
| FieldCipher.DecryptEncrypt | Smart-Parenting-Assistant/lib/encryption_utils.py:9-28 | `decrypt_field(encrypt_field(p)) == p` for every string, given an inverse cipher. |
| FieldCipher.DistinctIvs | Smart-Parenting-Assistant/lib/encryption_utils.py:10-13 | Encryptions under different IVs never produce the same text. |
| FieldCipher.ShortTextFallsBack | Smart-Parenting-Assistant/lib/encryption_utils.py:17-23 | Any input of at most 20 characters is too short to hold an IV and comes back re-padded. |
| FieldCipher.LegacyNameGainsPadding | Smart-Parenting-Assistant/lib/encryption_utils.py:19-32 | The legacy plaintext "Ali" comes back as "Ali=". |
| FieldCipher.DecryptFieldOrPlain | Smart-Parenting-Assistant/lib/encryption_utils.py:30-32 | The intended fallback returns the caller's input unchanged on any failure. |
| FieldCipher.PlainStaysPlain | Smart-Parenting-Assistant/lib/encryption_utils.py:30-32 | With the intended fallback, the round trip holds and short legacy plaintext is returned unchanged. |
| Nutrition.WeightLimit | Smart-Parenting-Assistant/lib/DL/nutition.py:68-85 | A weight limit exists exactly for months 0 to 120. |
| Nutrition.HeightLimit | Smart-Parenting-Assistant/lib/DL/nutition.py:87-107 | A height limit exists exactly for months 0 to 119. |
| Nutrition.BuildWeightTable | Smart-Parenting-Assistant/lib/DL/nutition.py:68-85 | The table built by the loop has keys exactly 0 to 120, with the limit values. |
| Nutrition.BuildHeightTable | Smart-Parenting-Assistant/lib/DL/nutition.py:87-107 | The table built by the loop has keys exactly 0 to 119, with the limit values. |
| Nutrition.WeightYearly | Smart-Parenting-Assistant/lib/DL/nutition.py:83-85 | From 12 months on, the weight limit is constant within a year, rises 3 kg per year, and lies between 7 and 34 kg. |
| Nutrition.HeightYearly | Smart-Parenting-Assistant/lib/DL/nutition.py:103-107 | From 12 months on, the height limit is constant within a year, rises 0.2 ft per year, and lies between 2.8 and 4.4 ft. |
| Nutrition.FirstBirthdayDrop | Smart-Parenting-Assistant/lib/DL/nutition.py:80-107 | Both limits drop at the first birthday: 11.2 to 7 kg, and 2.9 to 2.8 ft. |
| Nutrition.FirstYearRising | Smart-Parenting-Assistant/lib/DL/nutition.py:68-100 | In the first year, both limits strictly rise month by month. |
| Nutrition.AgeInMonths | Smart-Parenting-Assistant/lib/DL/nutition.py:110-114 | An unparsable date raises ValueError. Otherwise the age is 12·(years apart) + (months apart) for the parsed date. |
| Nutrition.TimeOfDayIgnored | Smart-Parenting-Assistant/lib/DL/nutition.py:111 | Everything from the first `T` on is ignored. |
| Nutrition.AgeIgnoresDay | Smart-Parenting-Assistant/lib/DL/nutition.py:114 | The day of the month does not matter, and a later year adds 12 months. |
| Nutrition.CheckLimits | Smart-Parenting-Assistant/lib/DL/nutition.py:146-158 | Each outcome is stated as an if-and-only-if. An age outside 0..120 gets 400. A weight strictly above its limit gets 400. An age of 120 with an acceptable weight raises KeyError. A height strictly above its limit gets 400. Pass means age 0..119 and both values within their limits. |
| Nutrition.CheckChild | Smart-Parenting-Assistant/lib/DL/nutition.py:143-158 | An unparsable date fails before any limit check. A pass implies an age of 0 to 119 months. |
| Nutrition.TenYearOldHitsMissingHeight | Smart-Parenting-Assistant/lib/DL/nutition.py:147-156 | Month 120 passes the range check, but gives KeyError unless the weight is too high. |
| Sanitize.Escape | Smart-Parenting-Assistant/lib/DL/nutition.py:129 | No `<`, `>`, `"` or `'` remains, and nothing is shortened. |
| Sanitize.UnescapeEscape | Smart-Parenting-Assistant/lib/DL/nutition.py:129 | Escaping loses nothing: unescaping the five references gives the text back. |
| Sanitize.Scrub | Smart-Parenting-Assistant/lib/DL/nutition.py:130 | The result is no longer than the input and adds no character. |
| Sanitize.ScrubClean | Smart-Parenting-Assistant/lib/DL/nutition.py:130 | No keyword (ignore, forget, you are now, disregard, in any ASCII case) starts anywhere in the result. |
| Sanitize.ScrubKeepsClean | Smart-Parenting-Assistant/lib/DL/nutition.py:130 | Text without a keyword is not changed. |
| Sanitize.SanitizeInput | Smart-Parenting-Assistant/lib/DL/nutition.py:125-131 | The result holds no keyword and no markup character. |
| Sanitize.PlainTextKept | Smart-Parenting-Assistant/lib/DL/nutition.py:125-131 | Trimmed text without markup, `&` or a keyword passes unchanged. |
| ReplyParser.ContentLine | Smart-Parenting-Assistant/lib/DL/nutition.py:211 | The result has no surrounding whitespace and is no longer than the line. |
| ReplyParser.BulletRemoved | Smart-Parenting-Assistant/lib/DL/nutition.py:211 | "* " + text gives the text, and so does the text itself. |
| ReplyParser.ContentLines | Smart-Parenting-Assistant/lib/DL/nutition.py:211 | There are at most as many content lines as lines, and each is trimmed. |
| ReplyParser.NoBlankLines | Smart-Parenting-Assistant/lib/DL/nutition.py:211 | When no line is blank, every line gives exactly its content line. |
| ReplyParser.Classify | Smart-Parenting-Assistant/lib/DL/nutition.py:208-217 | A section is skipped exactly when its stripped text has no line break. Otherwise it is advice exactly when its lowered, stripped first line contains "general". The content is the remaining non-blank lines, with bullets removed and stripped, joined by "\n". A suggestion is titled by the stripped first line, which is non-empty, trimmed and does not mention "general". |
| ReplyParser.OneBulletBlock | Smart-Parenting-Assistant/lib/DL/nutition.py:208-217 | A title line plus one bullet line gives advice or a suggestion by its title, with the bullet's text as content. |
| ReplyParser.Gather | Smart-Parenting-Assistant/lib/DL/nutition.py:203-217 | The two lists together are no longer than the sections, and every suggestion title is non-empty and not general. |
| ReplyParser.GatherAppend | Smart-Parenting-Assistant/lib/DL/nutition.py:207-217 | Sections are handled independently and in order: the lists for xs + ys are the lists for xs followed by those for ys. |
| ReplyParser.ScanSections | Smart-Parenting-Assistant/lib/DL/nutition.py:207-217 | The loop produces exactly the lists of `Gather`. |
| ReplyParser.MergeAdvice | Smart-Parenting-Assistant/lib/DL/nutition.py:219-225 | There is at most one entry, and none exactly when there is no advice. The entry is titled "General Advice", and its content is every advice block in order, joined by "\n", so it starts with the first block. |
| ReplyParser.Plan | Smart-Parenting-Assistant/lib/DL/nutition.py:188-228 | The error plan is returned exactly for an empty reply or one under 20 characters after stripping. Otherwise there is at most one "General Advice" entry, and every suggestion has a non-general title. |
| ReplyParser.ParseReply | Smart-Parenting-Assistant/lib/DL/nutition.py:188-232 | The handler's code computes `Plan(text)`. |
| ReplyParser.TwoBlockReply | Smart-Parenting-Assistant/lib/DL/nutition.py:203-228 | A general block and a suggestion block, each with one bullet, give one advice entry and one suggestion. |
| ReplyParser.SampleReply | Smart-Parenting-Assistant/lib/DL/nutition.py:203-228 | "General Advice / * Eat greens", a blank line, then "Breakfast / * Oats" gives the advice "Eat greens" and the suggestion ("Breakfast", "Oats"). |

## Left out

- MongoDB, SMTP, Gemini, logging, the API-key file and FastAPI routing are not modelled; their effects are parameters or the `outbox` sequence. growthMonitor.py, childManagement.py, growthEvaluatorModel.py and lib.jwt_utils are not part of this model.
- Concurrency: every operation is modelled as atomic and sequential. The non-atomic `delete_many`/`insert_one` pairs and the unguarded read-modify-write of `rate_limit_cache` are not modelled.
- Registration.Ledger.Valid: the invariant that a staged password only sits beside an unregistered email holds only because the model is sequential. Under concurrent signups, MongoDB could hold duplicate users.
- Registration.Ledger.LoginRequest: the `500 "Failed to send OTP email"` branch is left out. It is reachable only through a MongoDB failure in `delete_many` or `insert_one`, and the model's maps cannot fail; `send_otp_email` itself never raises.
- Registration: `user["email"]` on a found user is taken to be the email looked up. The JWT payload is only the `mint(email)` parameter.
- Utf8.DecodeEncode, FieldCipher.DecryptEncrypt: Dafny's `char` excludes surrogate code points, so "every string" means every string without a lone surrogate. A Python `str` can hold a lone surrogate; on one, `plain_text.encode()` raises `UnicodeEncodeError` and the exception escapes `encrypt_field`. That case is not modelled.
- Base64.Decode: the decoder is strict. Python's default `b64decode` silently discards characters outside the alphabet, so some inputs that fall back in the model would decode in Python.
- FieldCipher: AES itself, the key loading, and a key of invalid length are left out. The cipher is a parameter, and the round trip assumes only that it is invertible.
- Nutrition: float rounding in the limits (e.g. `2.8 + k*0.2`) is left out; limits are exact reals. The pydantic bounds on weight (0 to 100) and height (0 to 10) are enforced before the handler runs and are not modelled.
- Nutrition.AgeInMonths: `strptime` and `today()` are parameters, so date-format validation is not modelled.
- Sanitize.Scrub: case-insensitive matching is ASCII-only. Python's `re.IGNORECASE` also treats `ſ` as `s` and `ı` as `i`, so "dısregard" is removed by Python but kept by the model.
- ReplyParser: `str.lower()` is modelled on ASCII letters only.
- ReplyParser: a `response.text` of `None` is treated like the empty reply. The prompt text, the chat call and its `500 "AI service unavailable"` branch are left out.

## Findings

| source | as written | input that shows it | evidently intended | confidence | as-written member | corrected member |
|---|---|---|---|---|---|---|
| Smart-Parenting-Assistant/lib/encryption_utils.py:17-32 | The fallback returns `enc_text` after the re-padding step has reassigned it, so legacy plaintext whose length is not a multiple of 4 comes back with `=` appended. | `decrypt_field("Ali")` returns `"Ali="` | Return the caller's input unchanged ("treating as plaintext") | high, not executed | FieldCipher.LegacyNameGainsPadding | FieldCipher.PlainStaysPlain |
