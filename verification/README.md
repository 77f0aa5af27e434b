# Coly: big integers, cipher, sync server and stream buffer in Dafny

A Dafny 4.11 model of the parts of Coly that compute: the signed decimal big
integers of `NCint.hpp`, the permutation cipher of `GXPass.hpp` that is built on
them, the variable sync server of `server.cpp` with its containers, and the
`basic_streambuf` it ships. `dafny verify dfyconfig.toml` checks everything.
`Common` holds the few types and functions that several modules share.

- **Big integers** (`Digits`, `NCint`, `NCintMul`, `NCintDiv`). A number is a
  digit vector that may be longer than its length says, and a zero may keep a
  length. Every operator is the source's loop over a local vector, proved
  against the value of the digits, on every vector that holds digits, leading
  zeros included. Addition has an exact domain: it fails, with a borrow past the
  top digit, precisely when a number that is longer but smaller, such as a zero
  that kept its length, meets one of the other sign. Division is right for every
  dividend precisely when the divisor has no leading zeros, and for other
  divisors the dividends it is right for are characterised; so is the remainder.
- **Cipher** (`ModPower`, `Text`, `KeyText`, `SafeText`, `Permutation`,
  `Unranking`, `Cipher`, `EncryptedFile`, `Letters`). Key derivation is modelled
  in full, 64-bit wrap-around included. Unranking is a monotone bijection, the
  two byte tables are inverse, and encryption followed by decryption is the
  identity although the two sides walk different windows. Both return exactly
  when the version is known or there is nothing to encrypt. The power sum of
  `compile` is not a power sum under its default modulus, and `number2ABC` keeps
  its input exactly when it never holds a zero.
- **Server** (`Sections`, `Threads`, `Registry`, `Waiting`, `Changes`,
  `PlainStore`, `Server`, `Alone`, `Processes`, `Locks`, `Commands`,
  `Containers`).
  `Sections` says what each locked section does to the global maps; `Server` is
  the object whose methods do it; `Threads` interleaves the sections of all
  commands of any number of clients. Over every run, logins use up registrations
  one for one, no covered change is missed by a waiter, every map changes only
  under its mutex, and the mutexes cannot deadlock. With commands taken one at a
  time, set, get, del and sync are answered as a last-writer-wins map answers
  them, and runs of syncs end the same in every order exactly when the newest
  values agree; `Alone` shows that this sequential server is what the threads do
  when they are scheduled one command at a time, and `Processes` what the other
  commands leave behind then, field by field.
- **Stream buffer** (`StreamBuf`). A class over a growing byte vector that
  refines a bounded queue with prepared room behind it.

Where the code and its comments differ, the model follows the code. The comment
at `GXPass.hpp:125` speaks of 92 characters and the literal has 91; the cipher
is proved for every non-empty charset. The comment at `GXPass.hpp:142` calls the
default modulus "no modulus", and `ksm` is not exact for it. The header length
is 16, not the 32 of the comment at `GXPass.hpp:557`. The clean-up announced at
`server.cpp:161` is out of reach. `set process` and `sync process` list the
variables they will signal before they take the lock again, so a variable that
appears in between can vanish without a signal.

## Model

| member | source | states |
|---|---|---|
| `Digits.ValOrder` | NCint.hpp:156-161 | the highest differing digit decides which of two digit strings is larger |
| `Digits.ValZero` | NCint.hpp:206-212 | a digit string is worth 0 exactly when every digit is 0 |
| `Digits.ValCarry` | NCint.hpp:200-205 | carrying ten units up, or borrowing ten down, keeps the number |
| `Digits.ValInsert` | NCint.hpp:317 | inserting a digit behind slot 0 multiplies by ten and adds it |
| `BigInteger.Neg` | NCint.hpp:145-149 | negation flips the value and keeps canonicity, leading zeros or not |
| `BigInteger.Less` | NCint.hpp:150-162 | decides the order by signed length, then by value, on every valid pair |
| `BigInteger.LessIsNumericOrder` | NCint.hpp:150-162 | on canonical numbers that order is the numeric one |
| `BigInteger.CarryPass` | NCint.hpp:219-224 | carries turn slots into digits without changing the number; starting from at most 9c no slot exceeds 10c |
| `BigInteger.SetLength` | NCint.hpp:206-211 | the highest positive slot becomes the length and the number is canonical; an all-zero vector keeps what slot 0 held |
| `BigInteger.AddDigits` | NCint.hpp:214-231 | the sum of two positive numbers is exact and canonical unless 0, and the one spare slot is enough |
| `BigInteger.BorrowPass` | NCint.hpp:200-205 | borrows turn differences into digits; at most one unit is taken from beyond the top digit |
| `BigInteger.SubtractDigits` | NCint.hpp:195-205 | nothing is borrowed from beyond the top digit when the minuend is at least the subtrahend, and then the difference is exact; otherwise exactly one unit is |
| `BigInteger.SubtractSmaller` | NCint.hpp:193-212 | the difference is exact and well formed if and only if the magnitudes are in order, whatever leading zeros there are; a zero keeps the length of the minuend |
| `BigInteger.Add` | NCint.hpp:175-233 | on every valid pair addition is exact, and stops, if and only if no number that is longer but smaller meets one of the other sign; a zero sum keeps length and sign of the longer operand |
| `BigInteger.SwapStep` | NCint.hpp:183-185 | swapping the operands lowers the recursion measure and keeps the condition for exactness |
| `BigInteger.BothNegativeStep` | NCint.hpp:186-188 | so does negating both |
| `BigInteger.FlipStep` | NCint.hpp:189-191 | so does negating and swapping |
| `BigInteger.CanonicalCompatible` | NCint.hpp:175-233 | canonical operands always meet the condition |
| `BigInteger.CancelThenAdd` | NCint.hpp:175-236 | for canonical a and x, (a - a) + x borrows past the top if and only if x is negative and shorter than a, and is x otherwise |
| `BigInteger.Sub` | NCint.hpp:234-236 | subtraction is exact under the same condition on the negated operand, with the same zero lengths |
| `BigMultiply.AccumulateRow` | NCint.hpp:249-251 | one row of products adds digit times number, and no slot exceeds the largest product of two slots times the shorter length |
| `BigMultiply.Accumulate` | NCint.hpp:246-252 | the uncarried slots represent the product and stay within the same bound |
| `BigMultiply.ProductFits` | NCint.hpp:253-258 | the spare slot above both lengths ends as 0, for digits always and for larger slots if the product fits |
| `BigMultiply.Mul` | NCint.hpp:237-269 | multiplication is exact for all signs and leading zeros, and for quotient slots above 9 whose product fits; its result is canonical even when 0; with digits no slot ever exceeds 90 times the shorter length, so none leaves the range of int while that length is at most 23860929 |
| `BigDivide.FromInt` | NCint.hpp:97-111 | an int becomes the canonical number of its value, without spare slots |
| `BigDivide.FromText` | NCint.hpp:120-134 | decimal text becomes the number it spells, canonical if and only if it has no leading zero |
| `BigDivide.ToText` | NCint.hpp:72-81 | a number is written as the numeral of its magnitude, with a minus sign exactly for negative length |
| `BigDivide.TextRoundTrip` | NCint.hpp:72-134 | writing and reading back keeps the value; zero comes back with length 1 |
| `BigDivide.ToInt` | NCint.hpp:38-54 | a number in range becomes the int of its value with no intermediate overflow |
| `BigDivide.TruncatedUnique` | NCint.hpp:282-327 | there is only one quotient rounded toward zero |
| `BigDivide.SubtractOnce` | NCint.hpp:314 | one subtraction takes the divisor from the remainder and keeps it comparable; it changes nothing exactly for a divisor of value 0 |
| `BigDivide.QuotientDigit` | NCint.hpp:312-316 | repeated subtraction stops below the threshold and not earlier, with a digit of at most 9 for canonical divisors, and never ends exactly for a divisor of value 0 that the remainder reaches in length |
| `BigDivide.LessIsBelowThreshold` | NCint.hpp:150-162 | comparison with a divisor is numeric comparison with its value, or with the power of ten of its length when it has leading zeros; also for a zero that kept a length |
| `BigDivide.SubtractedUnique` | NCint.hpp:312-316 | there is only one number of subtractions that stops at the threshold |
| `BigDivide.DividesRightIff` | NCint.hpp:302-316 | stopping at the threshold leaves the true remainder exactly when the dividend is below the divisor, or at least the threshold with a remainder in the last stretch below it |
| `BigDivide.RightForAllIff` | NCint.hpp:282-327 | a divisor is right for every dividend if and only if it has no leading zeros |
| `BigDivide.LongDivision` | NCint.hpp:304-318 | dividend = quotient * divisor + remainder at every slot, with the remainder below the threshold; every quotient slot is a digit for canonical divisors |
| `BigDivide.Div` | NCint.hpp:282-327 | on every valid pair: division throws exactly for length 0, never ends exactly for a longer zero that the dividend reaches in length, and otherwise truncates toward zero if and only if the dividend is one the divisor is right for, always when the divisor is canonical; through the shortcuts for 1 and -1 and the general loop alike |
| `BigDivide.OwnValue` | NCint.hpp:302-326 | a number divided by the same number with leading zeros, such as 7 / 007, gives 0, without them 1 |
| `BigDivide.LongEnoughStep` | NCint.hpp:305-318 | the quotient slots filled so far are as many as what was brought down needs, so that quotient times divisor fits |
| `BigDivide.Mod` | NCint.hpp:332-337 | on every valid pair: throws and never ends where division does, and otherwise leaves what the subtractions leave, which is the remainder of truncated division if and only if the divisor is right for the dividend, always when it is canonical |
| `Permutation.Unrank` | GXPass.hpp:420-429 | every number below k! has a text of k characters; each index read is inside what is left |
| `Permutation.LeadingDigit` | GXPass.hpp:424-427 | the extracted index is below the remaining length and the remainder below the next factorial |
| `Permutation.UnrankIsPermutation` | GXPass.hpp:410-430 | the result uses exactly the characters of the charset |
| `Permutation.RankUnrank` | GXPass.hpp:410-430 | ranking undoes unranking on distinct characters |
| `Permutation.UnrankRank` | GXPass.hpp:410-430 | unranking undoes ranking, so unranking is a bijection onto the permutations |
| `Permutation.UnrankIncreasing` | GXPass.hpp:410-430 | larger numbers give lexicographically later permutations |
| `Unranking.Factorials` | GXPass.hpp:413-419 | the table holds the canonical factorials of 0 to 300 |
| `Unranking.LeadingIndex` | GXPass.hpp:424-426 | the big-integer quotient, read as an int, is the leading digit, also when the dividend is a zero that kept its length |
| `Unranking.Reduce` | GXPass.hpp:421-425 | the big-integer remainder is n mod f and well formed, zero or not |
| `Unranking.GetPermutationAfterN` | GXPass.hpp:410-430 | the loop over big integers yields the permutation of the charset whose rank is n mod k! |
| `Unranking.TargetIsPermutation` | GXPass.hpp:436 | the target alphabet is a permutation of all chars without repetition |
| `Unranking.EncipherIsPermutationK` | GXPass.hpp:431-442 | key k sends the 256 chars to the permutation of them with rank k mod 256! |
| `Unranking.SameCipherIff` | GXPass.hpp:431-442 | two keys encipher alike if and only if they are equal modulo 256! |
| `Unranking.EncipherTable` | GXPass.hpp:431-442 | the table sends every char to its place in the permuted alphabet |
| `Unranking.Decipher` | GXPass.hpp:443-454 | every char is the image of some char under the encryption table |
| `Unranking.DecipherInverts` | GXPass.hpp:431-454 | the decryption table undoes the encryption table on every char |
| `Unranking.DecipherTable` | GXPass.hpp:443-454 | the table built by the second loop is that inverse; no slot is written twice |
| `ModPower.KsmIsPower` | GXPass.hpp:144-155 | for a modulus up to 2^32 or dividing 2^64, the wrapping recursion computes a^n mod m for all 64-bit a and n |
| `ModPower.KsmExactIff` | GXPass.hpp:144-155 | it does so for all a and n if and only if the modulus is one of those |
| `ModPower.DefaultModulusIsNotExact` | GXPass.hpp:142-144 | the default modulus 2^64 - 1 is not |
| `KeyText.Sum` | GXPass.hpp:158-165 | the printed sum is the true sum of the signed codes modulo 2^64 |
| `KeyText.CodeSumConcat` | GXPass.hpp:158-165 | the sum adds up over texts put together, a single char counting its signed code |
| `KeyText.DxSum` | GXPass.hpp:168-193 | the printed alternating sums are plus and minus the true one modulo 2^64 |
| `KeyText.AlternatingSumConcat` | GXPass.hpp:168-193 | the alternating sum does so with the sign the position gives |
| `KeyText.KsmSum` | GXPass.hpp:196-204 | the loop prints the folded powers |
| `KeyText.KsmFoldIsPowerSum` | GXPass.hpp:196-204 | for an exact modulus the printed powers add up to the sum of c^len modulo m |
| `KeyText.WrappingPassword` | GXPass.hpp:196-204 | for any other modulus, the default one of compile included, they do not for the character 16 followed by fifteen zeros |
| `KeyText.ThreeWraps` | GXPass.hpp:142-155 | under the default modulus 3^40 is right, and 3^41 wraps at 2^64 and comes out one too small |
| `KeyText.KsmSumExactIff` | GXPass.hpp:196-204 | so the printed sum is right for every password if and only if the modulus is exact |
| `KeyText.SortedAscending` | GXPass.hpp:217-218 | sorting keeps the numbers and puts them in ascending order |
| `KeyText.PrintSorted` | GXPass.hpp:217-224 | the nested loops print each number, in sorted order, once per equal entry |
| `KeyText.Compile` | GXPass.hpp:207-245 | the compiled text for every version |
| `KeyText.CompileNonEmpty` | GXPass.hpp:207-245 | it is a numeral, empty exactly for versions outside -1 to 2 |
| `KeyText.CompileSorted` | GXPass.hpp:207-227 | the newest version prints the four numbers in ascending order, each once for every pair of its occurrences |
| `KeyText.CompileOrder` | GXPass.hpp:228-241 | version 0 prints sum, plus, minus, powers; version 1 prints plus, sum, minus, powers |
| `Text.ParseInvertsPrint` | GXPass.hpp:133-140 | reading a printed number back gives the number |
| `Text.PrintedPlainly` | GXPass.hpp:133-140 | printing leaves no leading zero |
| `SafeText.SafeString` | GXPass.hpp:315-346 | ceil(n/2) characters for a numeral of n digits |
| `SafeText.SafePairsOver` | GXPass.hpp:335-343 | every one of them from the charset |
| `SafeText.WrapIsRemainder` | GXPass.hpp:339 | the index arithmetic of the model is the remainder of the source |
| `SafeText.XorBit` | GXPass.hpp:331 | the mixing is the bitwise exclusive or |
| `SafeText.FnvVectors` | GXPass.hpp:329-333 | the hash is 64-bit FNV-1a, by its published values for the empty text and "a" |
| `SafeText.PaddedChecks` | GXPass.hpp:321-326 | the digit added to an odd numeral is the last digit of its digit sum |
| `SafeText.PairsUnfold` | GXPass.hpp:335-343 | a pair of digits picks the character at its number plus the hash, modulo the charset, and the hash moves on by 31 times itself plus that index |
| `SafeText.PairsReadableIff` | GXPass.hpp:335-343 | from a given hash on, the characters determine the digits if and only if the charset has at least 100 characters; the default one has 91 |
| `SafeText.ScrambleAt` | GXPass.hpp:371-373 | each code plus its index, as the remainder by 127 with the sign of what it is the remainder of |
| `SafeText.SafePassLengths` | GXPass.hpp:349-355 | the computed lengths, for every input length and the usual minimum |
| `SafeText.NumberToSafeString` | GXPass.hpp:315-346 | the three loops compute that text |
| `SafeText.FullsafeText` | GXPass.hpp:365-409 | a known version yields exactly the requested number of characters, any other none |
| `SafeText.FullsafeOver` | GXPass.hpp:365-409 | every character of a pass is from the charset |
| `SafeText.KnownVersions` | GXPass.hpp:366-409 | a pass comes from versions -1, 1 and 2 only; 0 yields nothing |
| `SafeText.GrownBy` | GXPass.hpp:370-401 | round 0 is the safe string of the scrambled and compiled input, and each round appends the safe string of the text before, compiled |
| `SafeText.ResolvedLengths` | GXPass.hpp:374-376 | the special length -1 is half the digits of the compiled input, rounded up, and -2 the computed one |
| `SafeText.PassCharacter` | GXPass.hpp:365-409 | character k of a pass is read, at its index modulo the length, from the text grown that many rounds; all versions but 1 skip the first preLen rounds |
| `SafeText.LatestIsTwo` | GXPass.hpp:367-368 | version -1 and version 2 give the same pass |
| `SafeText.FillPass` | GXPass.hpp:376-403 | the growing loop reads character i of the pass from the text grown i times |
| `SafeText.Fullsafe` | GXPass.hpp:365-409 | the whole function, its special lengths -1 and -2 included |
| `Letters.Number2ABC` | GXPass.hpp:248-295 | the loop computes the letters digit by digit |
| `Letters.SpelledBack` | GXPass.hpp:248-295 | the letters are A to Z, and writing them as numbers gives the input with only zeros missing |
| `Letters.EmitDropsZeros` | GXPass.hpp:251-293 | the same from any point of the loop, with the digit it holds |
| `Letters.SpelledIff` | GXPass.hpp:248-295 | from any point of the loop the letters spell no more digits than are held and unread, and the same text exactly when the loop never holds a zero |
| `Letters.SpelledExactlyIff` | GXPass.hpp:248-295 | the letters of a numeral spell that numeral if and only if the loop never holds a zero |
| `Letters.InjectiveIfNeverHeld` | GXPass.hpp:248-295 | numerals for which it never does have letters of their own, among each other |
| `Letters.InjectiveWithoutZeros` | GXPass.hpp:248-295 | numerals without zeros are of that kind |
| `Letters.GreedyLettersIff` | GXPass.hpp:265-285 | the letters of a numeral that keeps its zeros are the one text that spells it and takes two digits whenever they make a letter |
| `Letters.AfterHeldZero` | GXPass.hpp:256-262 | behind a lost zero, zeros are lost too and the next digit stands alone |
| `Letters.EveryNumeralCollides` | GXPass.hpp:248-295 | every numeral at all shares its letters with one that has a zero more |
| `Letters.ZerosCollide` | GXPass.hpp:256-257 | 3 and 30 share the letter C, and 30 is not of that kind |
| `Cipher.SmallNumber` | GXPass.hpp:463-465 | dictionary lengths and window sizes lie between 1..1 and 9..9 of their width and fit an int; an unknown version gives 0 |
| `Cipher.KeyNumberIff` | GXPass.hpp:466 | the key is read from 600 digits without zeros, and different digits give different keys |
| `Cipher.WindowSizeIs` | GXPass.hpp:481 | a window size has three digits |
| `Cipher.WindowIs` | GXPass.hpp:481-487 | the window ends with the current character and reaches back at most a window size |
| `Cipher.NextLength` | GXPass.hpp:481-489 | the window is the current character and up to a window size before it, inside the data, and the dictionary length it seeds is at least 11, or 0 for an unknown version |
| `Cipher.EncryptLoop` | GXPass.hpp:467-493 | for a known version, whatever the lengths are, the loop ends and replaces every character once, in order; for another it reaches a round that changes nothing |
| `Cipher.LoopEndsIff` | GXPass.hpp:467-493 | the rounds of the loop reach the end of the data if and only if the version is known or there is no data |
| `Cipher.DecryptLoop` | GXPass.hpp:502-528 | so does the decrypting loop, with its own windows |
| `Cipher.DecipherTextInverts` | GXPass.hpp:431-454 | under one key the two substitutions are inverse on every byte string |
| `Cipher.SameTextIff` | GXPass.hpp:472-478 | every character is replaced by its image, so two keys give one text exactly when they agree on its characters |
| `Cipher.OriginParts` | GXPass.hpp:456-458 | where device, pass hash and data hash stand in the text the final pass is hashed from |
| `Cipher.OriginDetermines` | GXPass.hpp:456-458 | that text determines its parts: another pass hash, data hash or device, or leaving the device out, makes another text |
| `Cipher.DerivedPassIs` | GXPass.hpp:455-460 | the pass a text is encrypted under is the final pass of that text, made of the device, the pass hash and the data's own hash |
| `Cipher.PassesAre` | GXPass.hpp:458-460 | final pass and data hash by their lengths and by the rounds their characters are read in |
| `Cipher.Encrypt` | GXPass.hpp:455-494 | the data is enciphered under the key of the derived final pass; the call never returns exactly for data under an unknown version, such as 0 |
| `Cipher.Decrypt` | GXPass.hpp:495-529 | the data is deciphered under the key of the given pass; the call never returns exactly for data under an unknown version |
| `Cipher.EncryptThenDecrypt` | GXPass.hpp:455-529 | decrypting with the derived final pass returns the data, for every byte string and every version with which encryption returns |
| `EncryptedFile.FileRoundTrip` | GXPass.hpp:551-629 | unpacking a packed file gives the data back if and only if the writer's header is the one the reader expects |
| `EncryptedFile.CurrentVersionRoundTrip` | GXPass.hpp:551-629 | which is so for versions -1 and 2, empty data included |
| `EncryptedFile.LayoutFields` | GXPass.hpp:557-605 | every field is read from where it was written |
| `EncryptedFile.HashesAre` | GXPass.hpp:550-552 | pass hash and header by the rounds their characters are read in |
| `EncryptedFile.WrongKeyIff` | GXPass.hpp:572-632 | under any password and device: what unpacking yields, and that the data comes back if and only if the two keys encipher it alike |
| `EncryptedFile.FileOriginIff` | GXPass.hpp:607-612 | the texts behind two keys are equal if and only if the hashes of the passwords are and, for a file tied to one, the devices |
| `EncryptedFile.MakeEncryptFile` | GXPass.hpp:530-571 | the bytes written, for every version with which encryption returns |
| `EncryptedFile.MakeDecryptFile` | GXPass.hpp:572-632 | the bytes recovered, nothing when the header or the data hash is wrong, no end for a payload under an unknown version |
| `Sections.SectionKeepsRegistry` | server.cpp:144-210 | whatever section runs, every open proof belongs to a listed subprocess and no list is empty |
| `Sections.SectionGrowsStates` | server.cpp:70-93 | whatever section runs, a key keeps its own wait state and versions never fall |
| `Sections.CloseParentErasesIff` | server.cpp:181-209 | closing a parent erases its process exactly when no other session is bound to it |
| `Sections.CloseSubKeepsStore` | server.cpp:154-179 | closing a subprocess never erases a process: the clean-up after the last one is out of reach |
| `Sections.WaitKeyTextInjective` | server.cpp:121 | different process and variable ids have different wait keys |
| `Sections.RegisterDoes` | server.cpp:598-615 | a registration is accepted if the id is neither open nor listed, opens a proof for the client's process and lists it |
| `Sections.LoginDoes` | server.cpp:616-632 | a login binds the client to the process its proof was opened for and uses the proof up |
| `Sections.RegisterThenLogin` | server.cpp:598-632 | so a client that logs in as the subprocess another registered is bound to that one's process |
| `Sections.CleanUpDoes` | server.cpp:424-433 | cleaning up drops exactly the listed proofs, the list and the client's session |
| `Sections.CloseSubDoes` | server.cpp:154-179 | a leaving subprocess takes its own proof, entry and session along, and nothing else |
| `Sections.CloseParentDoes` | server.cpp:181-209 | a leaving parent takes process, list and proofs along if and only if nobody else is bound |
| `Sections.VarSectionsKeepRest` | server.cpp:333-560 | writing, deleting or syncing a variable keeps the timestamp of its process and every other process |
| `Registry.StepKeepsLog` | server.cpp:598-632 | one step of any client keeps every login matched to a registration of its own |
| `Registry.RunIsRegistrySafe` | server.cpp:144-210 | in every state of every run: proofs are listed, no list is empty, each login used up a distinct earlier registration of the same subprocess, and a command past its check finds its session |
| `Registry.LoginBindsToParent` | server.cpp:598-632 | over every run: a login binds its client to the process that the registering client was bound to when it registered that subprocess |
| `Registry.StepKeepsSessionKnown` | server.cpp:242-248 | no other client can take away the session a command relies on |
| `Registry.SecondRegistration` | server.cpp:570-597 | a second client is told that a process is free only while the first is between its check and its insert, or after the process was erased |
| `Waiting.RunKeepsWaitInv` | server.cpp:103-142 | in every state of every run: references and snapshots are sound, one thread at most erases, and its variables' waiters are overtaken before it does |
| `Waiting.OvertakenStays` | server.cpp:414-423 | while process_mutex is held no new waiter appears behind a sent signal |
| `Waiting.BumpOvertakes` | server.cpp:91 | a version bump makes the predicate of every waiter on the key true |
| `Waiting.LockedStore` | server.cpp:414-423 | while process_mutex is held nobody else changes the store |
| `Changes.CoveredIsOwed` | server.cpp:301-336 | a set, deleted or erased variable, and an erased process, leaves a signal owed or its waiters overtaken |
| `Changes.UncoveredIsSilent` | server.cpp:284-311 | any other change moves no version, its author owes no signal for the key afterwards, and whoever owes one did so before the change |
| `Changes.SetProcessLosesAChange` | server.cpp:284-311 | a run from the start reaches a state in which set process drops a variable that appeared after it listed the old ones, without a signal, under a waiting client |
| `Changes.RunGrows` | server.cpp:70-93 | along every run versions only grow and keys keep their wait states |
| `Changes.DebtPaid` | server.cpp:79-93 | a thread stops owing a signal only after bumping the version |
| `Changes.NoMissedChange` | server.cpp:103-142 | a waiter whose snapshot precedes a covered change finds its predicate true in every state after that change's signal, in every interleaving, short of 2^64 signals |
| `PlainStore.LastWriterWins` | server.cpp:315-569 | get answers what was set last, nothing after a deletion, the newer value after a sync; a second deletion finds nothing |
| `PlainStore.OthersUnfelt` | server.cpp:315-569 | a command is felt at its own variable and session only |
| `PlainStore.SessionsAndProcesses` | server.cpp:242-569 | strangers are refused, a missing process ends the session, and only set brings it back |
| `PlainStore.SyncStep` | server.cpp:524-569 | on the plain map a sync request keeps every other variable and ends the session exactly when the process is missing |
| `PlainStore.SyncRunIsNewest` | server.cpp:551-569 | a run of syncs by any clients leaves every variable with the newest value stored or brought, a brought one on a tie, absent variables and processes included |
| `PlainStore.SyncAnyOrder` | server.cpp:551-569 | such a run ends in the same state in any order if the newest brought values of each variable agree |
| `PlainStore.SyncAnyOrderIff` | server.cpp:551-569 | and only if they do |
| `PlainStore.DistinctTimestampsAgree` | libVarContainer.hpp:19-25 | with distinct timestamps per variable they do |
| `Server.PutVarWrites` | server.cpp:334 | setting writes one variable, creating its process if needed |
| `Server.DropVarRemoves` | server.cpp:449-455 | deleting removes one variable |
| `Server.SyncVarMerges` | server.cpp:553-560 | syncing keeps the newer of the stored and the incoming value |
| `Server.SignalledKeeps` | server.cpp:79-93 | a signal moves the version of one key by one and nothing else |
| `Server.ExecuteIsPlain` | server.cpp:315-569 | one set, get, del or sync var command changes sessions and variables, and answers, as the plain map does |
| `Server.RunIsPlain` | server.cpp:315-569 | over every run of these commands by any clients the responses and the final state are those of the plain map |
| `Server.ServerSyncAnyOrderIff` | server.cpp:551-569 | the server's store and sessions after a run of syncs are the same in every order if and only if the newest brought values agree |
| `Server.Server.GetWaitState` | server.cpp:70-77 | an existing wait state is returned, a missing one made |
| `Server.Server.SignalWaitState` | server.cpp:79-93 | exactly one bump of the key's version, its wait state made if missing |
| `Server.Server.RegisterSubprocess` | server.cpp:598-615 | registers exactly when the id is neither proven nor listed |
| `Server.Server.LoginSubprocess` | server.cpp:616-632 | binds the session and uses up the proof |
| `Server.Server.EraseProofs` | server.cpp:427-429 | the loop erases all listed proofs |
| `Server.Server.CleanUpProcess` | server.cpp:424-433 | drops proofs, list and session |
| `Server.Server.AnyBound` | server.cpp:162-188 | the scan finds a bound session exactly when there is one |
| `Server.Server.Close` | server.cpp:144-210 | the whole of close_session |
| `Server.Server.SetVar` | server.cpp:315-339 | the whole effect of set var: the variable, one signal on its key, and nothing for a client without a session |
| `Server.Server.GetVar` | server.cpp:363-396 | the whole effect of get var: the stored variable, or what is missing, the session dropped with a missing process and nothing else changed |
| `Server.Server.DelVar` | server.cpp:438-474 | the whole effect of del var, the signal included |
| `Server.Server.SyncVar` | server.cpp:524-569 | the whole effect of sync var: an existing variable is merged without a signal, an absent one set with one |
| `Server.Server.ServeAll` | server.cpp:233-569 | any requests of any clients, served in sequence by these methods, get the responses of the plain map and leave its state |
| `Alone.CommandAlone` | server.cpp:315-569 | the interleaved threads, one command scheduled alone, change the globals exactly as the sequential command does |
| `Alone.ServedIsExecuted` | server.cpp:315-569 | so do whole sequences of requests served one at a time |
| `Processes.DelProcessAlone` | server.cpp:397-437 | del process, run to its end with its variables signalled in any order: process, list, listed proofs and session are gone, all else stays, and each of its variables and its own end was signalled once |
| `Processes.SetProcessAlone` | server.cpp:277-314 | set process stores the given process and signals each variable it had or has once |
| `Processes.SyncProcessAlone` | server.cpp:475-523 | sync process stores the newer of the two, the given one on a tie, and signals likewise |
| `Processes.RegProcessAlone` | server.cpp:570-597 | reg process binds the client and stores an empty process, or changes nothing if the client has a session or the process exists |
| `Processes.MissingProcessAlone` | server.cpp:340-523 | get, del and sync process on a missing process end the session and do nothing else |
| `Processes.GetProcessAlone` | server.cpp:340-362 | get process changes nothing |
| `Processes.RefusedAlone` | server.cpp:242-248 | without a session every command but registering and logging in is refused |
| `Processes.RegSubAlone` | server.cpp:598-615 | reg subprocess is one registration |
| `Processes.LoginAlone` | server.cpp:616-632 | login is one login, after which the connection knows which subprocess it is |
| `Processes.CloseAlone` | server.cpp:144-210 | hanging up closes the session as the subprocess the connection is |
| `Processes.WaitVarAlone` | server.cpp:119-142 | wait var waits from the current version if the variable is there, and returns at once if not |
| `Processes.WaitProcessAlone` | server.cpp:103-118 | wait process does so for a process |
| `Processes.WaiterWakesIff` | server.cpp:113-116 | a waiter goes on exactly when the version differs from its snapshot |
| `Processes.AllVersions` | server.cpp:79-93 | signalling a set of keys in any order moves the version of each by one and nothing else |
| `Locks.StepOrdered` | server.cpp:70-210 | every step of every command takes map_mutex, process_mutex and wait_mutex in this order only and sleeps with none; del process alone keeps process_mutex across steps |
| `Locks.StepGuarded` | server.cpp:43-48 | the stored processes change only under process_mutex, sessions, proofs and subprocesses only under map_mutex, the wait maps only under wait_mutex |
| `Locks.ProgramOrdered` | server.cpp:70-210 | so does the whole thread of a client, whatever commands it runs and whatever the others do meanwhile |
| `Locks.NoDeadlock` | server.cpp:70-210 | in every reachable state with a blocked thread, some thread that holds a mutex can go on |
| `Locks.SleepersHoldNothing` | server.cpp:113-116 | a thread in cv.wait holds none of the three mutexes |
| `Commands.ParseCommand` | server.cpp:233-241 | the scan of the command against the table |
| `Commands.ParseInvertsPrintIff` | server.cpp:233-241 | "verb object arg" parses to 10 * verb + object and arg if and only if arg does not start with a later object keyword |
| `Commands.ProcessCommands` | server.cpp:277-637 | "set process" is operation 11, "get process" 21, "del process" 31, "sync process" 41, "reg process" 51 and "wait process" 71, exactly unless the argument starts with "var" or "subprocess" |
| `Commands.VarCommands` | server.cpp:315-653 | "set var" is 12, "get var" 22, "del var" 32, "sync var" 42 and "wait var" 72, exactly unless the argument starts with "subprocess" |
| `Commands.SubprocessCommands` | server.cpp:598-632 | "reg subprocess" is 53 and "login subprocess" 63, always |
| `Commands.NameLostToKeyword` | server.cpp:50-61 | a process named variable cannot be registered |
| `Containers.VarFields` | libVarContainer.hpp:28-34 | the JSON form of a variable has its name, value and timestamp under their names |
| `Containers.ProcessFields` | libVarContainer.hpp:59-68 | that of a process has its variables under their ids, or null for none |
| `Containers.MemoryFields` | libVarContainer.hpp:100-109 | that of a memory has its processes likewise |
| `Containers.ReadingDefaults` | libVarContainer.hpp:37-82 | missing fields read as empty or 0, and exactly texts for texts and numbers or bools for numbers are accepted in a variable |
| `Containers.ProcessRoundTrip` | libVarContainer.hpp:59-82 | a process survives its JSON form if and only if all its timestamps fit 32 bits |
| `Containers.MemoryRoundTrip` | libVarContainer.hpp:100-123 | so does a memory of any size |
| `Containers.VarContainer.Sync` | libVarContainer.hpp:19-25 | both sides end with the newer content, the other side's on a tie |
| `Containers.VarContainer.FromJson` | libVarContainer.hpp:37-41 | reads the three fields or throws |
| `Containers.ProcessContainer.Sync` | libVarContainer.hpp:50-56 | the same merge for processes |
| `Containers.ProcessContainer.ToJson` | libVarContainer.hpp:59-68 | the loop writes every variable once; none at all gives null |
| `Containers.ProcessContainer.FromJson` | libVarContainer.hpp:71-82 | the loop reads every member or throws |
| `Containers.MemoryContainer.ToJson` | libVarContainer.hpp:100-109 | the loop writes every process |
| `Containers.MemoryContainer.FromJson` | libVarContainer.hpp:112-123 | the loop reads every process or throws |
| `Containers.MemoryContainer.Clear` | libVarContainer.hpp:126-129 | empties the container |
| `Containers.Transfer` | libVarContainer.hpp:100-123 | writing one container and reading another copies it exactly when all timestamps fit |
| `StreamBuf.StreamBuf.constructor` | asio/basic_streambuf.hpp:131-141 | an empty queue of the given bound |
| `StreamBuf.StreamBuf.Size` | asio/basic_streambuf.hpp:158-161 | the length of the queue, within the bound |
| `StreamBuf.StreamBuf.Reserve` | asio/basic_streambuf.hpp:308-346 | fails exactly when size() + n exceeds max_size(); success keeps the queue and makes room, the room that was there if it suffices and otherwise the larger of n and what shifting frees; failure leaves the bytes copied forward |
| `StreamBuf.CopyUnnoticedIff` | asio/basic_streambuf.hpp:322-340 | that copy leaves the contents alone if and only if they repeat with the shift as period |
| `StreamBuf.StreamBuf.Prepare` | asio/basic_streambuf.hpp:214-219 | the same for prepare |
| `StreamBuf.StreamBuf.Write` | asio/basic_streambuf.hpp:214-219 | bytes written to prepared room change its front only |
| `StreamBuf.StreamBuf.Commit` | asio/basic_streambuf.hpp:233-238 | moves the first bytes of the output sequence to the end of the input sequence |
| `StreamBuf.StreamBuf.Consume` | asio/basic_streambuf.hpp:247-254 | removes bytes from the front, at most all, and leaves the output sequence |
| `StreamBuf.StreamBuf.Underflow` | asio/basic_streambuf.hpp:263-274 | shows the first byte, or end of file exactly when empty |
| `StreamBuf.StreamBuf.Overflow` | asio/basic_streambuf.hpp:283-306 | appends one byte, making room for 128 or what is left; fails exactly when full, and then changes nothing |
| `StreamBuf.Perform` | asio/basic_streambuf.hpp:131-346 | one prepare, write, commit, consume, overflow or underflow is one step of the bounded queue, shows its first byte where it is asked for, and fails exactly when that step is not possible |
| `StreamBuf.Drive` | asio/basic_streambuf.hpp:131-346 | over every sequence of operations, on a buffer of any bound, the buffer runs as the bounded queue, shows what the queue shows, and stops at the first operation that is not possible |
| `StreamBuf.RunIsFifo` | asio/basic_streambuf.hpp:131-346 | what a run took, followed by what is left, is what was there, followed by what was appended |
| `StreamBuf.ShownIsNext` | asio/basic_streambuf.hpp:263-274 | what underflow shows is the byte that is taken next |
| `StreamBuf.RunWithinBound` | asio/basic_streambuf.hpp:131-346 | if every new layout of the room fits, queue and room together never exceed max_size() at any time |
| `StreamBuf.StepMatches` | asio/basic_streambuf.hpp:197-254 | whatever bytes new room holds, a client that commits only what it wrote knows what the queue holds |
| `StreamBuf.RunMatches` | asio/basic_streambuf.hpp:197-254 | so over whole runs, which stop exactly when the queue would overfill |
| `StreamBuf.DriveCarefully` | asio/basic_streambuf.hpp:131-346 | for such a client the buffer holds and shows exactly what a byte queue of at most max_size() bytes would |

## Left out

- BigDivide.Div: the counter of subtractions and the quotient slots are unbounded; with a divisor of ten or more leading zeros the source's int can overflow.
- BigMultiply.Mul: slots are unbounded integers; for factors that are both longer than 23860929 digits a slot of the source may overflow.
- BigDivide.FromInt: takes any integer, where the source takes an int and goes through text for a long long.
- Unranking.Factorials: the factorial table is rebuilt on each call, where the source keeps it in a static variable.
- Cipher.Encrypt: sizes are unbounded, where the source casts data.size() to int.
- EncryptedFile.MakeDecryptFile: files too short for their own fields are excluded, since the source reads past their end; version 1 files round-trip only if two header hashes agree.
- SafeText.Fullsafe: the length -2 needs a non-empty input, since the source divides by its length.
- NCint.hpp:172-174: `==` compares vectors and appears only inside division.
- Changes.NoMissedChange: says that the predicate becomes true, not that the waiter is woken; `notify_all` runs without the state's own mutex.
- Threads: malformed JSON and JSON of the wrong types, commands that only report an error, and `get process` output text. A field that throws ends the whole server in the source: `handle_client` runs in a detached thread and nothing catches (server.cpp:212-231, 674).
- Sections.CloseParentErasesIff: says nothing on waiters, since neither branch of `close_session` signals.
- Registering the same process name from two clients at once: the check and the insert are separate sections, so both may succeed, but only if they overlap (`Registry.SecondRegistration`); the second empties the process, which `Changes.UncoveredIsSilent` covers.
- Server.Server.ServeAll: requests arrive one after the other; interleaved ones are the subject of `Threads` and its invariants.
- Locks: the mutex inside each wait state, which only waiters take and which `cv.wait` releases.
- Containers: JSON text, floating-point and array values of timestamps; the `Timestamp` of a default-constructed process is an arbitrary number chosen by the `reg process` command of the model.
- StreamBuf.StreamBuf.Commit: bumps beyond the range of int are excluded, since the source casts the count; so for Consume. Allocation, `data()` and `capacity()` are not modelled.
- StreamBuf.StreamBuf.Consume: the test `gptr() + n > pptr()` is on natural numbers; in the source the pointer sum overflows for counts near 2^64.
- StreamBuf.Drive: on buffers larger than the range of int, the count of each commit and consume is in that range.
- Sockets, threads as operating-system objects, console output, files, the device id and the machine charset: parameters, or not modelled.
- `Coly.hpp`, `Coly.cpp`, `LanguageSyncLib` and the other asio headers.
