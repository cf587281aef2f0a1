# Amanuensis core: a verified model

Amanuensis is an intercepting web proxy. This project models the part of it that decides what
passes through, and proves what that part promises:

- the incremental HTTP/1.x parser, a byte-at-a-time automaton that pauses when a coarse phase of
  the message is reached and is resumed over reads of any size;
- the request printer, and the header table that the parser fills and the printer empties;
- the transaction: one proxied exchange, from the first byte of the client to the last signal, or
  two threads that copy bytes both ways after a CONNECT;
- the object pool that lends buffers.

`dafny verify dfyconfig.toml` checks the whole project.

## How the files fit together

Every entity that the program changes in place is a class with the program's own fields
(`HttpMessageParser`, `HttpMessage`, `Headers`, `Transaction`, `Connection`, `ObjectPool`), and
every method of theirs is proved to compute a function on values: `Step` and `Parsed` for the
parser, `Inserted` for the headers, `Formatted` for the printer, `React` for the transaction,
`Acquired` and `Dropped` for the pool. The results are about those functions.

| files | contents |
|---|---|
| Bytes, Text, HeaderFields, CanonicalNames, HttpMessage | characters and numbers, the search for a token, the header table and the spelling of its names, the message |
| HttpMessageParser | the parser: its automaton, and the loop that pauses |
| ParserRuns, Phases | whole runs; pausing and cutting into reads make no difference; where phases change |
| ChunkedBodies, FixedBodies, BodyFraming | both framings of a body, in both directions, and which one the header lines call for |
| NameBytes, FirstLines, HeaderLines, HeaderSections, WireMessages, Aborts | the grammar of what is accepted, what it means, and what stops the process |
| RequestPrinter, RoundTrip, ParsedRequests, Forwarding | printing, parsing again, and forwarding |
| TransactionProtocol, TunnelRuns, TransactionRuns, TransactionResults | the transaction as a state machine whose events an arbitrary scheduler and network choose; what every run keeps |
| TransactionProgress, TunnelDelivery | runs that get somewhere: whole exchanges, tunnels that open, deliver and end |
| TransactionFailures | why a run fails or stops, and with which reason |
| Transaction | the transaction as an object |
| ObjectPool | the pool, as a class and over all runs |

## What the code does that its documentation does not say

- A chunk length is kept modulo 2^64, so a length that spells 2^64 ends the body
  (`ChunkedBodies.LengthWraps`).
- An empty reason phrase is not recovered: the line end becomes its beginning
  (`FirstLines.EmptyPhrase`, `WireMessages.StatusPhraseIff`).
- A folded header line loses a character and is inserted under the empty name
  (`HeaderSections.FoldedRun`).
- A header needs exactly one blank after the colon; further blanks belong to the value. The
  character `>` is not counted among the separators, so it may occur in a name.
- A printed request carries the decoded body under its original headers, so a chunked request is
  forwarded as something that cannot be parsed as that request; nor can one with a folded line or
  with several lengths (`Forwarding.ForwardedAsSentIff`, `Forwarding.ChunkedIsLost`,
  `Forwarding.FoldedIsLost`, `Forwarding.TwoLengthsAreLost`).
- Repeated values are joined newest first, so a request that repeats a name is never forwarded as
  exactly what it was (`RoundTrip.ExactRoundTripIff`, `Forwarding.RepeatedIsChanged`).
- Leaving a notification state emits the signal of the state left, so "request read" is emitted
  only when the headers of the response have come, "response headers read" only when the response
  is complete, and "response read" never (`TransactionResults.SignalledExactlyWhenDue`,
  `TransactionProgress.ReceivedUnsignalled`, `TransactionResults.ResponseReadNeverEmitted`).
- A CONNECT whose tunnel was opened but whose reply could not be written fails with the success of
  opening as its reason (`TransactionResults.ReasonlessFailureIff`, `TransactionProgress.FailsWithoutReason`).
- A tunnel reports one completion for each of its reads and writes that fails: none, one or two
  (`TransactionProgress.TunnelCompletesOnceIff`). A read that fails without having brought a byte
  is not one of them: it releases the connections and reports nothing.
- Bytes that the client sends after the head of a CONNECT in the same read are dropped
  (`TransactionResults.ClientBytesConservedIff`, `TransactionProgress.TunnelLosesBytes`).
- The pool never counts the objects it began with as idle (`ObjectPool.IdleCountIff`).

## Model

| member | source | states |
|---|---|---|
| HeaderFields.CanonicalIffSameName | core/src/Headers.cpp:58-85 | two names have the same canonical form if and only if they are equal letter by letter ignoring case |
| HeaderFields.CanonicalIdempotent | core/src/Headers.cpp:58-85 | canonicalising a canonical name changes nothing |
| HeaderFields.CanonicalToken | core/src/Headers.cpp:58-85 | a canonical form is a token exactly when the name is |
| CanonicalNames.CanonicalCapitalised | core/src/Headers.cpp:58-85 | in every part of a canonical name between hyphens the first letter is a capital and every later letter is small |
| CanonicalNames.CanonicalIff | core/src/Headers.cpp:58-85 | the canonical form of a name is the only spelling that is the same name up to letter case and has its parts so capitalised |
| CanonicalNames.LetterCases | core/src/Headers.cpp:64-78 | for each of the 26 letters, at its place in two alphabets, which character is its upper and which its lower case |
| CanonicalNames.SameNameIff | core/src/Headers.cpp:58-85 | two names are the same exactly when at each place they have one character, or one letter in either case |
| CanonicalNames.NamesCapitalised | core/src/Headers.cpp:53-56 | every name that the table lists, and that is printed, is so capitalised |
| HeaderFields.Headers.Canonicalize | core/src/Headers.cpp:58-85 | the loop that changes a copy of the name letter by letter computes the canonical form; ASCII letters |
| HeaderFields.Headers.Insert | core/src/Headers.cpp:33-46 | both fields change as one insertion says; a name joins the order at its first use only; the size grows by one |
| HeaderFields.InsertAllConsistent | core/src/Headers.cpp:38-46 | after any list of inserts the order has no duplicates and is exactly the set of names that have values |
| HeaderFields.FindAfterInserts | core/src/Headers.cpp:48-51 | after any inserts a lookup finds exactly the values inserted under that name in any letter case, newest first |
| HeaderFields.NamesAfterInserts | core/src/Headers.cpp:53-56 | after any inserts the names are the canonical names in order of first use, each once |
| HeaderFields.SizeAfterInserts | core/src/Headers.cpp:33-36 | after any inserts the size is their number |
| Text.SearchToken | core/src/HttpMessageParser.cpp:560-584 | the loop over the field values finds a token exactly when some value, split at commas and trimmed, holds it |
| Text.JoinKeepsTokens | core/src/HttpMessageParser.cpp:560-584 | joining values with commas changes nothing for the search for a token |
| Text.SplitIff | core/src/HttpMessageParser.cpp:569 | the parts of a value are the one list of texts without a comma that gives the value back with commas put between them |
| Text.TrimmedIs | core/src/HttpMessageParser.cpp:571 | trimming removes all the blanks on both sides of a text and nothing else |
| Text.HasTokenIff | core/src/HttpMessageParser.cpp:565-577 | a value holds a token if and only if the token stands in it with blanks around it, and then an end of the value or a comma on either side |
| Text.ToUInt64Iff | core/src/HttpMessageParser.cpp:589-594 | a value is read as n if and only if n is below 2^64 and the value is the decimal digits of n with any zeros in front and any blanks around |
| Text.NoLengthIff | core/src/HttpMessageParser.cpp:589-594 | a value is refused if and only if it spells no number below 2^64 in that way |
| Bytes.TokenCharIff | core/src/HttpMessageParser.cpp:61-98 | the three tests that refuse a byte of a method or name leave exactly the letters, the digits and the 16 marks of a list that is written out |
| Bytes.TokenIff | core/src/HttpMessageParser.cpp:61-98 | so a token is a string of bytes of that list |
| Bytes.DigitIff | core/src/HttpMessageParser.cpp:100-110 | the digits, decimal and hexadecimal, are those of lists that are written out |
| Bytes.ByteKinds | core/src/HttpMessageParser.cpp:61-69 | the control characters are the 7-bit bytes outside the range from blank to tilde; the 7-bit bytes are those below 128 |
| Bytes.DigitsCount | core/src/HttpMessageParser.cpp:100-132 | each decimal digit, and each hexadecimal digit in either case, has the value of its place in a list that is written out |
| Bytes.HexRoundTrip | core/src/HttpMessageParser.cpp:112-132 | printing a number in hexadecimal, in either case and with any zeros in front, and reading the digits back gives the number |
| Bytes.DecimalRoundTrip | core/src/Request.cpp:42 | reading back the digits printed for a version number gives the number |
| Parser.HttpMessageParser.Consume | core/src/HttpMessageParser.cpp:172-719 | one byte changes the parser fields, the message and the tracked phase as the step function says, in every one of the states |
| Parser.HttpMessageParser.ConsumeRequestLine | core/src/HttpMessageParser.cpp:183-318 | the states of the request line |
| Parser.HttpMessageParser.ConsumeStatusLine | core/src/HttpMessageParser.cpp:320-456 | the states of the status line |
| Parser.HttpMessageParser.ConsumeHeaderSection | core/src/HttpMessageParser.cpp:461-555 | the states of the header section |
| Parser.HttpMessageParser.ConsumeBlankLine | core/src/HttpMessageParser.cpp:557-611 | the choice of framing on the blank line |
| Parser.HttpMessageParser.ChooseFraming | core/src/HttpMessageParser.cpp:560-605 | a chunked transfer encoding wins over the newest Content-Length, which must be a number below 2^64; zero means no body |
| Parser.HttpMessageParser.ConsumeChunkLine | core/src/HttpMessageParser.cpp:613-657 | the states of a chunk length |
| Parser.HttpMessageParser.ConsumeChunkData | core/src/HttpMessageParser.cpp:659-698 | the states of chunk data and of the end of a chunked body |
| Parser.HttpMessageParser.ConsumeFixedLength | core/src/HttpMessageParser.cpp:700-717 | a body byte of a declared length; any other state aborts |
| Parser.HttpMessageParser.ResetForRequest | core/src/HttpMessageParser.cpp:151-157 | the reset state for requests |
| Parser.HttpMessageParser.ResetForResponse | core/src/HttpMessageParser.cpp:159-165 | the reset state for responses |
| Parser.HttpMessageParser.Parse | core/include/core/HttpMessageParser.h:209-237 | the loop over a buffer stops on an outcome, on the end, or on the byte that changes the tracked phase, and returns how far it got |
| NameBytes.TakenIffNameByte | core/src/HttpMessageParser.cpp:183-520 | in each of the four states a byte goes into the method or the header name exactly when it is on the list; one that is not and does not end the name makes the message invalid |
| NameBytes.InNameIff | core/src/HttpMessageParser.cpp:183-520 | after the first bytes of a request or of a header line the parser is inside the method or name if and only if they all are on the list, and then they are the method or name |
| ParserRuns.RunSplit | core/src/HttpMessageParser.cpp:172-719 | parsing two pieces one after the other is parsing them together |
| ParserRuns.UnpausedParseIsRun | core/include/core/HttpMessageParser.h:209-237 | a parse that tracks no phase is the plain fold of the step over the bytes |
| ParserRuns.PausedParseIsRun | core/include/core/HttpMessageParser.h:209-237 | a parse that pauses is the fold over the bytes it consumed, and without an outcome or a new phase it has consumed all |
| ParserRuns.DriveIsRun | core/src/Transaction.cpp:200-217 | parsing a buffer and resuming at every new phase gives the outcome, message, parser state and count of one fold, and announces the phases of that fold in order |
| ParserRuns.ReadsAreRun | core/src/Transaction.cpp:165-223 | the same for any number of reads of any size, over their concatenation; while the message is incomplete every byte read has been consumed |
| ParserRuns.ReadSizesDoNotMatter | core/src/Transaction.cpp:354-374 | two ways of cutting the same bytes into reads give the same result |
| Phases.PhaseTracksState | core/src/HttpMessageParser.cpp:721-754 | along every run the phase is a function of the state; the pauses are the phases passed, in order, each at most once |
| Phases.PhaseOnlyGrows | core/src/HttpMessageParser.cpp:721-754 | the phase only moves from the start to the first line to the headers |
| Phases.RequestPhaseIsTextual | core/src/HttpMessageParser.cpp:721-754 | the phase of an incomplete request is read off the bytes alone: whether a line feed, and whether a blank line, has come |
| Phases.PausesFallOnLineEnds | core/src/HttpMessageParser.cpp:721-754 | a phase changes only on the line feed of a line end, and of a blank line when the headers have been received; exactly when it does is stated by Phases.RequestPhaseIsTextual, WireMessages.StatusLinePauseIff and WireMessages.HeadersPauseIff |
| WireMessages.StatusLinePauseIff | core/src/HttpMessageParser.cpp:721-754 | an incomplete response has paused after its first line if and only if its bytes begin with a status line |
| WireMessages.HeadersPauseIff | core/src/HttpMessageParser.cpp:721-754 | an incomplete response has paused after its headers if and only if its bytes begin with a status line and a header section that calls for a body, up to the line feed of the blank line |
| ChunkedBodies.EncodingRun | core/src/HttpMessageParser.cpp:613-698 | complete: every list of chunks in every spelling of their lengths is accepted on the last line feed, and the body is the concatenation |
| ChunkedBodies.PrintedLengthsRun | core/src/HttpMessageParser.cpp:613-698 | data cut into pieces anyhow, each sent with its length printed in hexadecimal, in either case and with any zeros in front, is decoded to exactly the data, on the last byte |
| ChunkedBodies.BodySoFar | core/src/HttpMessageParser.cpp:613-698 | at every byte inside a chunked body the bytes are completed chunks and a part of one more, and the counter is what is missing of it |
| ChunkedBodies.AcceptedIsEncoding | core/src/HttpMessageParser.cpp:613-698 | sound: the bytes accepted are an encoding, and the body is its data |
| ChunkedBodies.AcceptsExactlyEncodings | core/src/HttpMessageParser.cpp:613-698 | both directions as one equivalence |
| ChunkedBodies.EncodingUnique | core/src/HttpMessageParser.cpp:613-698 | two lists of chunks with the same encoding are the same list |
| ChunkedBodies.LengthWraps | core/src/HttpMessageParser.cpp:627-638 | seventeen digits that spell 2^64 are read as zero and end the body |
| ChunkedBodies.LengthReadIff | core/src/HttpMessageParser.cpp:613-638 | after the digits of a length the counter of the parser holds the number they spell if and only if that is below 2^64 |
| ChunkedBodies.DividedAsSpelledIff | core/src/HttpMessageParser.cpp:613-698 | the one way an accepted body divides into chunks is the way its lengths are spelled if and only if every length spelled is below 2^64 |
| FixedBodies.CounterDrops | core/src/HttpMessageParser.cpp:700-711 | each body byte lowers the 64-bit counter by one, and completes the message exactly when one was left |
| FixedBodies.FixedRun | core/src/HttpMessageParser.cpp:700-711 | with n bytes outstanding, fewer leave the rest outstanding, and n or more complete the message on the n-th |
| FixedBodies.FixedLengthFraming | core/src/HttpMessageParser.cpp:586-605 | from the blank line on, received and outstanding bytes add up to the declared length, and what follows is left unread |
| BodyFraming.ChunkedIffSaid | core/src/HttpMessageParser.cpp:560-584 | the search finds "chunked" if and only if a Transfer-Encoding field that was sent, in any letter case, lists it |
| BodyFraming.NewestLengthDecides | core/src/HttpMessageParser.cpp:586-605 | without it, the last Content-Length field that was sent decides: no body if it spells zero, n bytes if it spells another n below 2^64, and otherwise a refusal |
| BodyFraming.DeclaredLengthRun | core/src/HttpMessageParser.cpp:586-711 | after such header lines the message is complete on exactly the n-th byte after the blank line, on the blank line itself for zero, and the body is those bytes |
| BodyFraming.NoLengthRun | core/src/HttpMessageParser.cpp:607-609 | a message that is not chunked and gives no length ends on the blank line |
| BodyFraming.BadLengthIff | core/src/HttpMessageParser.cpp:589-594 | a message that is not chunked is refused on the blank line if and only if its last length spells no number below 2^64 |
| BodyFraming.ChunkedRun | core/src/HttpMessageParser.cpp:560-698 | a message that says "chunked" is delimited by its printed chunk lengths whatever length it gives |
| BodyFraming.RequestOfLength | core/src/HttpMessageParser.cpp:172-719 | the same of a request with a declared length, from its first byte |
| BodyFraming.ResponseOfLength | core/src/HttpMessageParser.cpp:172-719 | and of a response |
| FirstLines.RequestHeadRun | core/src/HttpMessageParser.cpp:183-318 | every request line is read as what it says: method, target and both version numbers |
| FirstLines.RequestLineSoFar | core/src/HttpMessageParser.cpp:183-318 | what has been read of a request line is its beginning, and the message says what the beginning says |
| FirstLines.RequestLineIsHead | core/src/HttpMessageParser.cpp:183-318 | sound: what takes the parser through the first line of a request is a request line |
| FirstLines.StatusHeadRun | core/src/HttpMessageParser.cpp:320-456 | every status line with a reason phrase is read as what it says |
| FirstLines.StatusLineSoFar | core/src/HttpMessageParser.cpp:320-456 | the same for what has been read of a status line |
| FirstLines.StatusLineIsHead | core/src/HttpMessageParser.cpp:320-456 | sound: what takes the parser through the first line of a response is a status line |
| FirstLines.EmptyPhrase | core/src/HttpMessageParser.cpp:426-434 | the line end after an empty reason phrase is taken for the beginning of one |
| WireMessages.StatusPhraseIff | core/src/HttpMessageParser.cpp:426-448 | a status line with any reason phrase is read as what it says if and only if the phrase is not empty, is 7-bit and has no carriage return after its first character |
| HeaderLines.FieldsRun | core/src/HttpMessageParser.cpp:461-555 | well-formed lines in any letter case, with repeats, leave the headers equal to inserting them one by one and both buffers empty |
| HeaderSections.FoldedRun | core/src/HttpMessageParser.cpp:484-502 | a folded line loses its first character that is not a blank, and the rest is inserted under an empty name |
| HeaderSections.LinesRun | core/src/HttpMessageParser.cpp:461-555 | every list of lines, folded and blank ones included, is accepted, and inserts what its lines insert |
| HeaderSections.SectionSoFar | core/src/HttpMessageParser.cpp:461-555 | at every byte of a header section the bytes divide up into lines, and the headers are what the completed lines insert |
| HeaderSections.SectionIsLines | core/src/HttpMessageParser.cpp:461-555 | sound: what takes the parser from the first header line to the blank line is a list of lines, the first of them not folded |
| WireMessages.RequestRun | core/src/HttpMessageParser.cpp:172-719 | every request of the grammar, with any body its headers call for, is complete on its last byte and read as what it says, whatever follows |
| WireMessages.ResponseRun | core/src/HttpMessageParser.cpp:172-719 | the same for responses |
| WireMessages.CompletedRequestIs | core/src/HttpMessageParser.cpp:172-719 | whatever the parser takes for a request is one of the grammar |
| WireMessages.CompletedResponseIs | core/src/HttpMessageParser.cpp:172-719 | whatever the parser takes for a response is one of the grammar |
| WireMessages.CompletesIffRequest | core/src/HttpMessageParser.cpp:172-719 | the texts accepted as a request are exactly those of the grammar |
| WireMessages.CompletesIffResponse | core/src/HttpMessageParser.cpp:172-719 | the texts accepted as a response are exactly those of the grammar |
| Aborts.BodyAbortsIff | core/src/HttpMessageParser.cpp:627-692 | a chunked body stops the process on its last byte if and only if it is chunks followed by a length and a semicolon, or by a zero length, its line end and a byte other than a carriage return |
| Aborts.RequestAbortsIff | core/src/HttpMessageParser.cpp:172-719 | the bytes on which a request stops the process, instead of being refused, are exactly a request line, header lines that say "chunked" and such a body |
| Aborts.ResponseAbortsIff | core/src/HttpMessageParser.cpp:172-719 | the same of a response |
| RequestPrinter.Format | core/src/Request.cpp:37-70 | the printed text is the request line, one line for each name with its values joined, a blank line and the body |
| RequestPrinter.FormatHeaders | core/src/Request.cpp:44-61 | the loop over the names |
| RequestPrinter.FormatValues | core/src/Request.cpp:47-58 | the loop with the flag for the first value joins the values |
| RoundTrip.RoundTripIff | core/src/Request.cpp:37-70 | the printed text of a request is parsed, to its last byte, as that request with the values of each name joined, newest first, if and only if its headers declare its body |
| RoundTrip.ExactRoundTripIff | core/src/Request.cpp:37-70 | it is parsed as exactly that request if and only if, besides, no name is repeated, and the request has no status |
| RoundTrip.ChunkedNotRecovered | core/src/Request.cpp:64-67 | a decoded body printed under a chunked encoding is never read back as itself |
| RoundTrip.SingleValuesIff | core/src/Request.cpp:50-58 | joining leaves the headers as they are if and only if every name has one value |
| RoundTrip.FramingNormalised | core/src/HttpMessageParser.cpp:560-605 | joining repeated values changes neither whether a body is chunked nor a single declared length, and makes several lengths no length at all |
| RoundTrip.PrintingStabilises | core/src/Request.cpp:37-70 | what is recovered prints as the same text, repeated names included |
| ParsedRequests.ParsedRequestIsPrintable | core/src/HttpMessageParser.cpp:172-719 | a parsed request has the body its headers declare, and can be printed again exactly when its body is 7-bit and nothing was inserted under the empty name |
| ParsedRequests.FoldedNotRecovered | core/src/Request.cpp:45-48 | a value under the empty name makes the printed text one that the parser refuses |
| ParsedRequests.ForwardedRequestIff | core/src/Transaction.cpp:298-325 | what is forwarded of a parsed request is parsed as the request with the values of each name joined, newest first, if and only if it was not chunked, left no value under the empty name and gave its length at most once; and as exactly the request if and only if it was not chunked, left no such value and repeated no name |
| Forwarding.EmptyNameIffFolded | core/src/HttpMessageParser.cpp:484-502 | a header section leaves a value under the empty name if and only if one of its lines was folded |
| Forwarding.ForwardedAsSentIff | core/src/Transaction.cpp:298-325 | the same of every request a client can send: it survives, values joined, if and only if its body is plain, no line is folded and its length is given at most once; exactly, if and only if its body is plain, no line is folded and no name is repeated |
| Forwarding.ChunkedIsLost | core/src/Request.cpp:64-67 | a chunked request that is not forwarded as itself |
| Forwarding.FoldedIsLost | core/src/Request.cpp:45-48 | a request with a folded line that is not |
| Forwarding.TwoLengthsAreLost | core/src/Request.cpp:47-58 | a request with two lengths that is not |
| Forwarding.RepeatedIsChanged | core/src/Request.cpp:47-58 | a request with a repeated name that is, but not as it was |
| Transactions.Transaction.constructor | core/src/Transaction.cpp:113-130 | a new transaction is the initial state |
| Transactions.Transaction.DoNotification | core/src/Transaction.cpp:689-735 | the loop through the notification states emits, for each state left, the signal of that state |
| Transactions.Transaction.NotifyPhaseChange | core/src/Transaction.cpp:649-687 | a new phase moves the notification state as its side of the exchange calls for |
| TransactionFailures.NotificationStandsForPhase | core/src/Transaction.cpp:649-687 | a phase moves the notification state to the one at its own place on the side of the request, three places further up on that of the response, where the first line moves nothing |
| TransactionFailures.StateTellsPhase | core/src/Transaction.cpp:200-217 | in every run, until the request is relayed or its tunnel begins, the notification state stands for the phase that a reset parser reaches over all the bytes read |
| Transactions.Transaction.ReleaseConnections | core/src/Transaction.cpp:629-647 | each connection that is there is closed once and forgotten; with the mutex held the thread waits for itself |
| Transactions.Transaction.CompleteTransaction | core/src/Transaction.cpp:623-627 | releases and completes |
| Transactions.Transaction.NotifyFailure | core/src/Transaction.cpp:737-747 | releases, records the reason, reports the failure and completes |
| Transactions.Transaction.Begin | core/src/Transaction.cpp:157-163 | starts, clears the record and reads |
| Transactions.Transaction.ReadClientRequest | core/src/Transaction.cpp:165-178 | a read of the client is started under the mutex, on a connection that is there |
| Transactions.Transaction.DriveRequest | core/src/Transaction.cpp:200-217 | the loop that resumes the parse at every new phase and announces it does what is left to do, and ends |
| Transactions.Transaction.OnRequestRead | core/src/Transaction.cpp:178-251 | what follows a read of the client, by error, outcome and method |
| Transactions.Transaction.OpenRemoteConnection | core/src/Transaction.cpp:253-285 | the host and the port that a connection is asked for |
| Transactions.Transaction.OnRemoteOpened | core/src/Transaction.cpp:285-295 | what follows the opening of a connection |
| Transactions.Transaction.SendClientRequestToRemote | core/src/Transaction.cpp:298-312 | the printed request is written under the mutex |
| Transactions.Transaction.OnRequestSent | core/src/Transaction.cpp:312-325 | the record is cleared and the parser reset before the response is read |
| Transactions.Transaction.ReadRemoteResponse | core/src/Transaction.cpp:327-338 | a read of the remote end is started under the mutex |
| Transactions.Transaction.DriveResponse | core/src/Transaction.cpp:354-368 | the loop for the response |
| Transactions.Transaction.OnResponseRead | core/src/Transaction.cpp:338-392 | what follows a read of the remote end |
| Transactions.Transaction.SendRemoteResponseToClient | core/src/Transaction.cpp:394-405 | the recorded bytes are written under the mutex |
| Transactions.Transaction.OnResponseSent | core/src/Transaction.cpp:405-424 | what follows the writing of the response |
| Transactions.Transaction.EstablishTlsTunnel | core/src/Transaction.cpp:426-452 | the host and the port that a tunnel is asked for |
| Transactions.Transaction.OnTunnelOpened | core/src/Transaction.cpp:452-483 | the client is told either way, under the mutex |
| Transactions.Transaction.OnReplySent | core/src/Transaction.cpp:484-509 | the tunnel starts, or the transaction fails with the result of opening |
| Transactions.Transaction.SendClientRequestViaTunnel | core/src/Transaction.cpp:513-523 | the section that starts a read of the client, if both ends are still there |
| Transactions.Transaction.OnTunnelRequestRead | core/src/Transaction.cpp:523-537 | what follows a read in the client direction: the end, an error, or bytes now in the buffer |
| Transactions.Transaction.WriteTunnelRequest | core/src/Transaction.cpp:539-547 | the section that starts to write what is in the buffer, if the remote end is still there |
| Transactions.Transaction.OnTunnelRequestWritten | core/src/Transaction.cpp:547-565 | what follows a write in the client direction: an error, a short write, or the next read |
| Transactions.Transaction.SendServerResponseViaTunnel | core/src/Transaction.cpp:568-578 | the section that starts a read of the remote end |
| Transactions.Transaction.OnTunnelResponseRead | core/src/Transaction.cpp:578-592 | what follows a read in the other direction |
| Transactions.Transaction.WriteTunnelResponse | core/src/Transaction.cpp:594-602 | the section that starts to write to the client |
| Transactions.Transaction.OnTunnelResponseWritten | core/src/Transaction.cpp:602-621 | what follows a write in the other direction |
| Transactions.Transaction.EndUp | core/src/Transaction.cpp:623-747 | the sections of a direction that releases the connections or reports its failure |
| Transactions.Transaction.EndDown | core/src/Transaction.cpp:623-747 | the same for the other direction |
| Transactions.Transaction.RelayRequest | core/src/Transaction.cpp:228-245 | a whole request asks for a tunnel or is relayed |
| Transactions.Transaction.OnEvent | core/src/Transaction.cpp:157-621 | every event, the sections of both directions of a tunnel included, makes the object react as the state machine does; the invariant of all runs is kept and the mutex is free again |
| Protocol.IndexOf | core/src/Transaction.cpp:266 | the first position of a character, or the end |
| TransactionRuns.HostAndPortNames | core/src/Transaction.cpp:263-281 | the address is cut at its first colon, or is all host with the default port |
| TransactionRuns.ReactKeeps | core/src/Transaction.cpp:157-747 | every event keeps the invariant, which ties request, response, bytes read and written, signals, phases and connections together |
| TransactionRuns.ReachableInvariant | core/src/Transaction.cpp:157-747 | the invariant holds after every sequence of events |
| TransactionRuns.ReadExtendsRun | core/src/Transaction.cpp:200-223 | one more read extends the one fold over all bytes read so far |
| TransactionResults.NoSelfDeadlock | core/src/Transaction.cpp:165-175 | in no run does a thread wait for the mutex it holds: the failures reported under the mutex are unreachable |
| TransactionResults.ClosedAtMostOnce | core/src/Transaction.cpp:629-647 | in every run each connection is closed at most once, and the client connection has been closed exactly when it is null |
| TransactionResults.ReleasedForever | core/include/core/Transaction.h:127-134 | once released, connections stay null and are not closed again, whatever follows |
| TransactionResults.ClosedOnceIfOpened | core/src/Transaction.cpp:629-647 | in every run, once the connections have been released, the client connection has been closed once, and the remote one once if and only if one was ever opened |
| TransactionResults.OverIsReleased | core/src/Transaction.cpp:623-647 | a transaction that is finished, and a tunnel one of whose directions has stopped, has released its connections |
| TransactionResults.RemoteIsNamed | core/src/Transaction.cpp:253-281 | the connection asked for is the one the first Host value, or the target of a CONNECT, names |
| TransactionResults.FailureReasonIff | core/src/Transaction.cpp:484-509 | the event that makes a transaction fail, in a tunnel too, gives it no reason if and only if a tunnel was opened and the reply could not be written |
| TransactionResults.ReasonlessFailureIff | core/src/Transaction.cpp:737-747 | in every run a failed transaction is without a reason if and only if it ended as a CONNECT whose client was sent the reply that the tunnel is open |
| TransactionFailures.FailedOperationFails | core/src/Transaction.cpp:165-511 | from every reachable state in which an ordinary transaction waits for an operation, the failure of that operation ends it at once with exactly the reason due, both connections released, and the failure and the completion as its last two signals; nothing else changes |
| TransactionFailures.OpeningTunnelFails | core/src/Transaction.cpp:452-511 | a tunnel that cannot be opened: the client is sent the refusal, and whether or not that can be written the transaction then fails with the result of opening |
| TransactionFailures.EndsAsDue | core/src/Transaction.cpp:157-511 | every run that ends without becoming a tunnel has failed with the reason due for its first operation that failed; if none did, as malformed exactly because the request is invalid or names no host or the response is invalid; and otherwise has not failed and both messages are complete |
| TransactionFailures.WithoutFailureIff | core/src/Transaction.cpp:157-511 | it has not failed if and only if every operation it awaited succeeded, both messages are complete and the request names a host |
| TransactionFailures.StopsIff | core/src/Transaction.cpp:200-251 | in every run the process has stopped if and only if a parser stops it over the bytes read from its end |
| TransactionFailures.TunnelFailsAsDue | core/src/Transaction.cpp:513-621 | in every interleaving the reason recorded for a tunnel that has failed is that of an operation of the tunnel that failed, and of the only one if there was one: its code, or a network error for a short write |
| TransactionProgress.FailsWithoutReason | core/src/Transaction.cpp:484-509 | a run, from the first event on, that fails without a reason |
| TransactionResults.TunnelReplyUnderstood | core/src/Transaction.cpp:460-470 | the reply to a CONNECT is a complete response, with status 200 or 400 |
| TransactionResults.OrdinaryEnding | core/src/Transaction.cpp:623-747 | a run that ends without a tunnel has emitted the start, at most one request read, then at most one response headers read, at most one failure, and one completion, last; each of the two in the middle exactly if it was due |
| TransactionResults.SignalledExactlyWhenDue | core/src/Transaction.cpp:689-735 | in every state of every run, request read has been emitted if and only if the request and the headers of the response have been received, response headers read if and only if the response has |
| TransactionProgress.ReceivedUnsignalled | core/src/Transaction.cpp:693-734 | a run in which the request has been received whole and that has not been signalled |
| TransactionResults.NothingEndsEarly | core/src/Transaction.cpp:689-735 | until a run ends or becomes a tunnel, and when the process stops, nothing that ends a transaction has been emitted, and what was due and nothing else |
| TransactionResults.ResponseReadNeverEmitted | core/src/Transaction.cpp:723-726 | the signal for a response read is emitted in no run |
| TransactionResults.NotificationNeverDecreases | core/include/core/Transaction.h:40-54 | no event moves the notification state back |
| TransactionResults.FaithfulRelay | core/src/Transaction.cpp:327-424 | after a run without failure the client has been sent exactly the bytes read from the remote end, and the recorded response is what one parse of them yields |
| TransactionResults.SentOnlyAsDue | core/src/Transaction.cpp:298-424 | in every state of every run, failing ones too, the remote end has been sent nothing or once the printed request, the client nothing, or once the whole response after it has been received, or once the reply to its CONNECT |
| TransactionResults.RemoteUnderstandsIff | core/src/Transaction.cpp:298-325 | the same of what the remote end was sent in any run that ended without failure: both the request with repeated values joined, and exactly the request, with their exact conditions |
| TransactionResults.TunnelConserves | core/src/Transaction.cpp:513-621 | in every state of a tunnel, each way, what was delivered comes first in what its reads brought, and the rest is in flight in the buffer |
| TransactionResults.ClientBytesConservedIff | core/src/Transaction.cpp:200-236 | all that the client sent after the head of its CONNECT is delivered or in flight if and only if nothing came after the head in the read that completed it |
| TransactionProgress.TunnelLosesBytes | core/src/Transaction.cpp:230-236 | what does come after the head in that read is lost, for every CONNECT |
| TunnelRuns.TunnelKept | core/src/Transaction.cpp:513-621 | every section of either direction keeps the invariant of the tunnel |
| TunnelRuns.BufferHeldWhileInFlight | core/src/Transaction.cpp:513-566 | a buffer does not change while bytes in it wait to be written |
| TunnelRuns.IoStartsOnOpenConnections | core/src/Transaction.cpp:513-621 | reads and writes are started only while both connections are open |
| TransactionProgress.TunnelCompletesOnceIff | core/src/Transaction.cpp:513-621 | in every run a tunnel that is over has reported as many completions, and failures, as its reads and writes failed, so exactly one completion if and only if exactly one failed; both connections have been closed once |
| TunnelRuns.FaultBeginsFailure | core/src/Transaction.cpp:513-621 | a direction begins to fail on the event on which an operation fails, and on no other |
| TransactionProgress.TunnelMayEndUnreported | core/src/Transaction.cpp:523-530 | a run, from the first event on, in which two ends of input end a tunnel without any completion |
| TransactionProgress.TunnelMayEndReportedTwice | core/src/Transaction.cpp:737-747 | a run in which two failed writes report completion twice |
| TransactionProgress.TunnelOpens | core/src/Transaction.cpp:426-511 | every CONNECT, cut into reads anyhow, becomes a tunnel with both directions reading, if the connection opens and the reply is written |
| TunnelDelivery.TunnelDelivers | core/src/Transaction.cpp:513-621 | after any CONNECT, in any interleaving of the two directions in which the operations that complete succeed, each way the bytes delivered and in flight are all the bytes read, in order, and a direction that reads or is about to has delivered all of them |
| TunnelDelivery.TunnelDrains | core/src/Transaction.cpp:513-621 | from any point of such a run a few more operations that succeed, none of them a read, deliver everything read both ways |
| TransactionProgress.ExchangeCompletes | core/src/Transaction.cpp:157-424 | for every other request that names a host, every response, and every cutting of both into reads, the run whose operations all succeed ends without failure, with exactly four signals, the printed request sent to the remote end and the bytes of the response to the client |
| TransactionProgress.AnExchange | core/src/Transaction.cpp:157-424 | there is such a run |
| ObjectPool.ObjectPool.constructor | core/include/core/ObjectPool.h:78-90 | the pool is filled with its minimum |
| ObjectPool.ObjectPool.Acquire | core/include/core/ObjectPool.h:96-118 | the top of the stack is lent, or a new object |
| ObjectPool.ObjectPool.Drop | core/include/core/ObjectPool.h:56-66 | a pointer that goes away gives its object back to a pool that lives, and deletes it otherwise |
| ObjectPool.ObjectPool.Release | core/include/core/ObjectPool.h:141-154 | an object goes back on the stack while the stack is below the maximum |
| ObjectPool.PoolConserves | core/include/core/ObjectPool.h:96-154 | in every run each object made is idle, lent once or deleted; the stack stays below one of the bounds; one counter is the number lent, the other lacks the objects the pool began with, in 64 bits |
| ObjectPool.GoneKeepsNothing | core/include/core/ObjectPool.h:48-94 | in every run a pool that is gone has nothing idle: each object made is lent or deleted, and deleted when it is given back |
| ObjectPool.IdleCountIff | core/include/core/ObjectPool.h:120-123 | the number of idle objects is reported rightly if and only if the pool began empty |
| ObjectPool.DroppedIsNext | core/include/core/ObjectPool.h:96-154 | an object given back to the stack is the next one lent |
| ObjectPool.MakesNoMoreThanNeeded | core/include/core/ObjectPool.h:96-118 | a pool that has deleted nothing has made no more objects than its minimum or the most lent at one time |

## Left out

- RoundTrip.RoundTripIff: bodies of 7-bit characters only, because the printer puts the body through a text stream whose re-encoding of other bytes is not modelled.
- RoundTrip.ExactRoundTripIff: 7-bit bodies only, for the same reason.
- RoundTrip.PrintingStabilises: 7-bit bodies only, for the same reason.
- ParsedRequests.ForwardedRequestIff: 7-bit bodies only, for the same reason.
- Forwarding.ForwardedAsSentIff: 7-bit bodies only, for the same reason.
- TransactionResults.RemoteUnderstandsIff: 7-bit bodies only, for the same reason.
- Phases.PausesFallOnLineEnds: says where a phase may change, not that it does; that is said by Phases.RequestPhaseIsTextual, WireMessages.StatusLinePauseIff and WireMessages.HeadersPauseIff.
- ObjectPool.ObjectPool.Acquire: taken as one step under the pool's mutex; in the program a new object is made after the mutex has been given back, which no other thread can observe.
- Threads: in a tunnel each method of the class is one section of one direction's thread between two locks, and the events choose which section runs next; memory effects outside the mutex are not modelled.
- The read buffers: bytes of a read come with its completion; that an ordinary read stores them in the 8192-byte array first is not modelled. In a tunnel the contents of both buffers are.
- HeaderFields.Headers.Canonicalize: letters outside ASCII are left alone, which Qt's conversions would also change; no name that the parser inserts has any, because such names are tokens.
- Parser.HttpMessageParser.ChooseFraming: a length with a leading plus sign counts as no number, where Qt's conversion would accept the sign.
- Text.ToUInt64Iff: the same leading plus sign is refused; so in Text.NoLengthIff and in all of BodyFraming.
- Version and status numbers are unbounded; in the program they are `int`.
- Failure to reserve memory for a body, and all other failures to allocate.
- Chunk extensions and trailers stop the process in the program; here they are the outcome `Fatal`, and end a run.
- Listeners that call back into a transaction from a signal.
- Server, connection pool and socket classes: their operations are the events that complete with any result; that asio reports at most the size of the buffer is the guard of such an event.
- Persistent connections, responses that end when the connection closes, and pipelined requests: the code has none.
- The user interface, saving to a database, logging, installers, the macOS helper and the system proxy settings.
