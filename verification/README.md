# OpenScope: a verified model of the broker core

OpenScope brokers capabilities: an agent asks a daemon to run verbs, the daemon checks policy
and allow-lists, and a user may delegate part of an agent's surface to an external party over
a relay that is not trusted. This project models the parts where correctness is hard to see
from the code and proves, for all inputs and all runs, what they promise.

The parts, and where they are:

- **The reflector channel** (`SymbolicCrypto`, `RecordLayer`, `Handshake`, `Protocol`,
  `ProtocolSafety`, `Endpoints`, `EndToEnd`). Daemon sessions, external clients and a relay form one state
  machine. The relay drops, repeats, reorders, splices and injects frames, owns key pairs of its
  own and may learn connect secrets. HKDF (sections 2.2 and 2.3 of RFC 5869), X25519 (section 6.1
  of RFC 7748), HMAC, SHA-256 and AES-GCM are free constructors; nonces are a derived prefix plus
  a counter (section 3.2 of RFC 5116). The handshake transcript stays an octet string, so the
  injectivity of its concatenation is proved and not assumed. Counters are 64-bit and wrap.
- **Command rendering** (`ShellLexer`, `ShellCommand`, `CommandAction`, `SystemArgv`). The
  printer of remote commands against a lexer for the POSIX.1-2017 Shell Command Language
  (sections 2.2.1 to 2.2.3, 2.3 and the introductory sequences of 2.6, with nested command
  substitutions), and the shell-free argument vectors of system verbs.
- **The rate limiter** (`RateLimiter`): exact real arithmetic and a non-decreasing clock.
- **WebSocket framing** (`OctetBits`, `WebSocket`, `SocketProbe`; sections 5.2 and 5.3 of
  RFC 6455): the plugin's incremental parser and masking writer, and the Python probe's blocking
  reader and writer of the same frames.
- **Authorization** (`Strings`, `Paths`, `AppDef`, `Policy`, `Passport`, `Capabilities`,
  `Service`, `Broker`, `Definitions`): lexical path cleaning, deny-overrides evaluation, passport
  scopes and their subset check, the advertised surface, the guard chain in front of executors,
  the session table, and verb definitions with provenance.
- **State machines around it** (`TokenStore`, `Spool`, `AdminConfig`, `Apply`): token rows, the
  telemetry spool, normalised root-owned configuration, and plan against transactional apply.

Objects the program updates in place are classes whose methods are tied to a specification
function; the theorems are about those functions and about runs of them. The main guards,
comparisons and constants those functions rest on have laws of their own that do not mention them,
spelled on the texts, bytes, fields or numbers they are about.

What the proofs found, with the exact condition each time:

- The handshake binds the concatenation of the two nonces. They are agreed one by one exactly
  when the nonce that reached the daemon is 16 octets long, since only emptiness is checked
  (`Handshake.FinishAgrees`, `Handshake.ShortenedNonceStillAccepted`).
- An accepted record is refused when replayed exactly when its counter is not 2^64 - 1
  (`RecordLayer.ReplayRefusedExactly`).
- Single-quoting is safe at unquoted positions of a command or of a command substitution and
  nowhere else: not after a dollar sign, in arithmetic, in backquotes, in a here-document, in a
  comment or in quotes (`ShellCommand.QuotedValueIsLiteralExactly`,
  `ShellCommand.ExcludedPositions`). For whole templates the condition is exact too
  (`ShellCommand.PlacementExactly`). Text after a construct on which the lexer gives up counts as
  not unquoted; there "nowhere else" is a limit of the lexer and no fact about the shell.
- The allowed prefix "/" covers only "/" (`Paths.UnderExactly`).
- A registry entry marks its whole app as applied by root, so it also enables the verbs that a
  user file defines for that app (`Definitions.AppFlagsExactly`, `Service.AnsweredAtLookup`).
- Once a connect secret leaks, the relay can have the daemon dispatch any request without any
  client, so the premise of `ProtocolSafety.DispatchesComeFromOneClient` is needed
  (`ProtocolSafety.LeakedSecretLetsRelayIn`).
- A relative package prefix can be saved, unlike the other path lists
  (`AdminConfig.SavedSystemExactly`).
- Removing a rule in an apply compares effect, agent, verb and constraints only, so it also takes
  rules of other users and groups: removing one user's deny can grant another user the verb
  (`Apply.RemovingOneDenyGrantsAnother`). It deletes only rules that apply to the same requests
  exactly when every stored rule it is taken for names the same user and groups, or can apply to
  nothing as the named one (`Apply.RemovalIsTargetedExactly`).
- Adding a rule twice stores it twice exactly when it was not there and lists a group twice,
  although the comparison is documented to ignore duplicates (`Policy.AddingTwiceExactly`).
- Whether a re-added target has other settings is decided on comma-joined lists, which tells lists
  apart exactly when no entry holds a comma (`Apply.JoinTellsApartExactly`).
- A proposal's list of package managers to remove has no effect
  (`AdminConfig.ManagerRemovalIsIgnored`).
- An audit record is in the log exactly if appending it worked: the log is only probed before the
  run and the append error is dropped, so an execution without a record exists
  (`Broker.EveryExecutionIsAudited`, `Broker.UnrecordedExecution`).
- A stored rule with a blank constraint value can hide a different rule from being added; rules
  found equal behave alike exactly when the stored one has no blank value or the new one has one
  too (`Policy.EqualRulesAgreeExactly`, `Policy.BlankConstraintHidesRule`).
- Opening a session checks the limit before it inserts, so k concurrent opens really reach
  MaxSessions + k - 1 (`Broker.RacingOpensReachBound`).
- Extending a session checks the new scope against the surface of whoever extends it, not of the
  issuer, so the scope in force is inside the surface of the last agent that set it. What an agent
  may set is inside the issuer's surface exactly when each capability its rules advertise is
  covered by one the issuer's rules advertise, and for all configurations exactly when it is the
  issuer. Policy is still evaluated for the issuer (`Broker.ScopeWasChecked`,
  `Broker.SetterStaysInsideExactly`, `Broker.OnlyTheIssuerStaysInside`,
  `Broker.StrangerWidensScope`, `Broker.ReflectedAuthority`).
- The subset check accepts a request that lists no parameters, which permits everything. A request
  it accepts stays inside the issuer's capability for all contexts exactly when it lists every
  constrained key and pins every key pinned to a value (`Passport.BareRequestEscapes`,
  `Passport.CoveredInclusionExactly`).
- Rolling back a failed apply ignores errors. The disk ends as it was exactly when each restoring
  operation works or does no harm, and a run that ends partly applied exists
  (`Apply.Disk.ApplyProposal`, `Apply.PartlyAppliedRun`).
- Cleaning a configured path can uncover trailing white space, which the next load or save trims,
  so such a path is stored differently from what was reviewed; this happens exactly when the
  cleaned form ends in white space (`AdminConfig.PathListStaysExactly`,
  `AdminConfig.SettingsSettleExactly`, `Apply.UnsettledPathDrifts`).
- Plan adds before it removes and apply removes before it adds. On settled live targets they agree
  exactly when no alias is both added and removed and no newly stored target has such a path
  (`Apply.ApplyMatchesPlanExactly`).
- The Python probe takes an incomplete frame for a whole one exactly when the frame is masked and
  empty and the stream ends inside the mask (`SocketProbe.UndetectedCutExactly`,
  `SocketProbe.CutMaskPassesForFrame`).

## Model

| member | source | states |
|---|---|---|
| SymbolicCrypto.ParsePublic | reflector/crypto.go:52-54 | exactly the 32 octets of a public key parse, and they name one key pair |
| RecordLayer.AeadSession.constructor | reflector/crypto.go:185-213 | a fresh channel end starts both counters at zero |
| RecordLayer.AeadSession.SealRecord | reflector/crypto.go:216-228 | one sealing step; every mirror-image peer that is not ahead opens the record to the plaintext |
| RecordLayer.AeadSession.OpenRecord | reflector/crypto.go:231-250 | one opening step; a refused record changes nothing |
| RecordLayer.SealAllRecords | reflector/crypto.go:216-228 | the i-th record of a run of seals carries counter start + i and encrypts the i-th plaintext |
| RecordLayer.InOrderDelivery | reflector/crypto.go:216-259 | any in-order selection of a sender's records opens at a mirror-image receiver to exactly the selected plaintexts |
| RecordLayer.AcceptedCountersIncrease | reflector/crypto.go:231-250 | over any record stream in which no accepted record carries counter 2^64 - 1, accepted counters are strictly increasing from the receive counter on |
| RecordLayer.ReplayRefusedExactly | reflector/crypto.go:231-250 | a replay of an accepted record is refused iff its counter is not 2^64 - 1 |
| RecordLayer.OpenExactly | reflector/crypto.go:231-250 | a record opens to a plaintext iff it was sealed under the receiving key, prefix, direction and transcript with its own counter and that counter is not below the next expected one; the counter then moves to the one after it, 2^64 - 1 wrapping to 0 |
| RecordLayer.SealExactly | reflector/crypto.go:216-228 | a sealed record carries the send counter in its header, nonce and associated data, and the counter moves by one, wrapping at 2^64 |
| Handshake.TranscriptDetermines | reflector/crypto.go:122-140 | equal transcripts have equal rendezvous, daemon key, client key and tail, whatever the fields |
| Handshake.FinishAgrees | reflector/handshake.go:55-108 | if finish accepts a MAC a daemon handshake computed, both used the same rendezvous, keys and secret, their ends mirror each other, and the nonces agree one by one iff HS1 carried 16 octets |
| Handshake.ShortenedNonceStillAccepted | reflector/handshake.go:79-108 | a shortened nonce in HS1 is accepted and leaves the two sides with different nonces |
| Handshake.FinishExactly | reflector/handshake.go:55-77 | a client accepts HS2 iff it has the daemon's role, a nonce and the confirmation MAC under the key of both ephemeral keys, both nonces, the rendezvous and the secret; the ends it gets are spelled out |
| Handshake.FinishNeedsDaemonKey | reflector/handshake.go:59-62 | a handle without a valid daemon key accepts nothing |
| Handshake.DaemonHandshakeExactly | reflector/handshake.go:81-108 | a daemon answers HS1 iff it has the client's role, a nonce and a valid public key; its ends and the HS2 it sends are spelled out |
| Handshake.HonestHandshakeCompletes | reflector/handshake.go:36-108 | over a faithful relay the handshake completes with mirror-image ends |
| Protocol.RunInvariant | reflector/manager.go:154-219 | every reachable state of sessions, clients and relay keeps structure, provenance of all MACs and ciphertexts, the seal log and authenticity |
| Protocol.DaemonReadsItsClient | reflector/manager.go:196-219 | a record the daemon opens under an unknown key is the own call of one client whose end mirrors it |
| Protocol.ClientReadsItsDaemon | reflector/client.go:118-138 | a record the client opens under an unknown key is a response its mirror-image daemon session sealed |
| ProtocolSafety.DispatchesComeFromOneClient | reflector/manager.go:196-219 | in every run the requests dispatched on a session with an unleaked secret are an order-preserving duplicate-free selection of one client's sealed requests |
| ProtocolSafety.EveryReturnAnswersItsCall | reflector/client.go:101-138 | in every run each Call that returns gives the response the named daemon computed for that call's own request, and call ids of returns strictly increase |
| ProtocolSafety.EstablishedMeansAgreed | reflector/client.go:39-79 | in every run an established client agrees with a handshake its daemon really ran, with mirror-image ends |
| ProtocolSafety.Hs2Decides | reflector/client.go:39-79 | the first HS2 decides a client's attempt: established on the accepted ends with fresh counters, or given up; later ones change nothing |
| ProtocolSafety.AttemptIsFinal | reflector/client.go:39-79 | in every run a client that gave up stays so and an established one keeps its ends |
| ProtocolSafety.LeakedSecretLetsRelayIn | reflector/handshake.go:79-108 | for every request there is a run in which the connect secret leaks and the daemon dispatches that request although no client ever started |
| ProtocolSafety.NoNonceReuse | reflector/crypto.go:216-228 | in every run without counter wrap no key is used twice under one nonce, across all parties |
| ProtocolSafety.CountersInStep | reflector/crypto.go:216-250 | between an established honest pair the send counters count what was sent and neither receiver is ahead |
| ProtocolSafety.FaithfulRelayCompletesCall | reflector/client.go:101-138 | in any reachable state, forwarding the two frames of a call makes the daemon dispatch exactly that request and the call return exactly its response |
| Endpoints.ServedSession.HandleHandshake | reflector/manager.go:178-194 | the handler takes exactly the protocol's HS1 step; a second HS1 is ignored |
| Endpoints.ServedSession.HandleData | reflector/manager.go:196-219 | the handler takes exactly the protocol's data step on the same channel object |
| Endpoints.ExternalClient.Call | reflector/client.go:101-138 | the blocking loop equals the protocol's call and reply steps over the fetched frames, and returns a response iff one carried this call's id |
| EndToEnd.RunInvariant | reflector/manager.go:154-219 | in every run of relay, clients and daemon together, the runs of a session are the dispatches of its channel one by one, each done and answered as sealed, but for the one in progress |
| EndToEnd.DaemonRunsSealedRequests | reflector/manager.go:196-219 | in every run the requests taken up on a session with an unleaked secret, the one in progress included, are an order-preserving duplicate-free selection of what one client sealed for it |
| EndToEnd.ExecutedRequestWasSealed | daemon/reflector.go:74-87 | in every run an execution for a reflected session is of a request a client holding its channel sealed, within the issuer's authority |
| EndToEnd.ReturnedResponseIsOfItsRun | reflector/manager.go:196-219 | in every run each response a Call returned is the answer of a finished run, on the named session, of exactly that call's request |
| ShellCommand.QuotedValueIsLiteral | executor/sshexec/ssh.go:576-578 | at any unquoted position, of a command or of a nested command substitution, a quoted value is read as exactly that literal text |
| ShellCommand.QuotedValueIsLiteralExactly | executor/sshexec/ssh.go:576-578 | reading back literally for all values holds iff the position is unquoted, expansions and backquotes counted as quoted |
| ShellCommand.ExcludedPositions | executor/sshexec/ssh.go:573-578 | after a dollar sign, in parameter expansion, arithmetic, backquotes, quotes, a here-document or a comment the position is not unquoted |
| ShellCommand.SubstitutionPositions | executor/sshexec/ssh.go:573-578 | the start of a command substitution is unquoted again, even within double quotes |
| ShellCommand.RemoteCommand | executor/sshexec/ssh.go:461-467 | the shell tokenises the command built for any argument list into exactly that list, fully quoted |
| ShellCommand.PiecesSpellTemplate | executor/sshexec/ssh.go:553-560 | substituting nothing gives the template back |
| ShellCommand.HolesAreThePlaceholders | executor/sshexec/ssh.go:547-560 | a piece is a hole at a position iff a placeholder stands there |
| ShellCommand.NameCharacters | executor/sshexec/ssh.go:547 | placeholder names are made of ASCII letters, digits and underscores |
| ShellCommand.RenderedCommandReadsAsTemplate | executor/sshexec/ssh.go:547-578 | with placeholders at unquoted positions, lexing a rendered command equals lexing the template with each placeholder read as its literal value, for all values |
| ShellCommand.PlacementIsStatic | executor/sshexec/ssh.go:547-560 | whether placeholders are at unquoted positions does not depend on the values |
| ShellCommand.PlacementExactly | executor/sshexec/ssh.go:547-578 | the rendered text of a template is read piece by piece as the template says, for all values, iff every placeholder sits at an unquoted position |
| ShellCommand.ExcludedTemplates | executor/sshexec/ssh.go:547-578 | a template with a placeholder right after a dollar sign, in arithmetic, backquotes or quotes does not meet the placement condition, whatever the values |
| CommandAction.AllowedPathExactly | executor/sshexec/ssh.go:594-610 | a path argument is accepted iff it is absolute, holds no NUL or line end and the place it names is allowed, and the canonical spelling is passed on; what a spelling names is fixed by Paths.ComponentsBelow |
| CommandAction.ServiceCharacters | executor/sshexec/ssh.go:24 | service names are made of ASCII letters, digits and @ _ . : - |
| CommandAction.ResolveExactly | executor/sshexec/ssh.go:158-184 | a service is passed on, trimmed, iff the target lists it and its characters are allowed; a path, cleaned, iff it names an allowed place; anything else unchanged iff it holds no NUL |
| CommandAction.SubstitutedValues | executor/sshexec/ssh.go:158-184 | every value of a rendered command is, by its parameter's constraint, a service the target lists and the trimmed argument, the cleaned trimmed path to an allowed place, or the argument itself |
| CommandAction.StreamedIsLeftOut | executor/sshexec/ssh.go:158-184 | a parameter that names a local file to stream has no value on the command line |
| CommandAction.ResolvedAreChecked | executor/sshexec/ssh.go:158-184 | exactly the declared, not streamed parameters have values, and each value is what its check passed on, as ResolveExactly spells out |
| CommandAction.QuoteArguments | executor/sshexec/ssh.go:158-184 | succeeds iff every argument is acceptable, and holds the quoted checked values |
| CommandAction.RenderCommand | executor/sshexec/ssh.go:145-186 | fails exactly on an unknown verb, a blank command or an unacceptable argument; otherwise each service value is one the target lists and the trimmed argument, each unconstrained value is the argument itself, and, if the template has its placeholders at unquoted positions, the remote shell reads the template with those values as literals |
| SystemArgv.FieldsAreRuns | executor/systemexec/system.go:160-163 | tokens are the maximal runs without white space, in order: white space anywhere splits the tokens before it from those after it |
| SystemArgv.FieldsKeepPieces | executor/systemexec/system.go:160-190 | cutting the template into tokens first loses, splits and invents no placeholder |
| SystemArgv.ElementIsFilledToken | executor/systemexec/system.go:171-190 | an element exists iff all its arguments are acceptable and is the token with them filled in |
| SystemArgv.ArgumentExactly | executor/systemexec/system.go:171-190 | a placeholder is replaced by the argument as given, or cleaned if the last parameter declared under the name is a path; it is refused iff it holds a NUL or line end or such a path is not absolute |
| SystemArgv.RenderSystemArgv | executor/systemexec/system.go:154-196 | one argv element per template token, the program untouched, and failure exactly on a bad program token or argument |
| SystemArgv.RunSystemCommand | executor/systemexec/system.go:119-146 | hands something on iff the verb has a command, is root-applied where privileged, names a literal absolute program and all arguments are acceptable; and then starts that program |
| SystemArgv.PrivilegedProgramIsRegistered | executor/systemexec/system.go:125-132 | in an assembled namespace a privileged custom verb runs the command template of the root-owned registry |
| RateLimiter.Limiter.AllowKey | daemon/ratelimit.go:42-65 | one call on the map equals the bucket rule after making room; AdmittedExactly says what that rule admits |
| RateLimiter.Limiter.constructor | daemon/ratelimit.go:31-39 | an empty map for at most 4096 keys |
| RateLimiter.AdmittedExactly | daemon/ratelimit.go:42-65 | a known key is admitted iff the burst is at least one token and what was left plus rate * idle nanoseconds / 1,000,000,000 reaches one; a new key iff the burst is at least one token |
| RateLimiter.EmptiedKeyWaits | daemon/ratelimit.go:55-65 | a key emptied and then idle for n nanoseconds is admitted iff rate * n / 1,000,000,000 and the burst both reach one token |
| RateLimiter.BurstAtOnce | daemon/ratelimit.go:42-65 | of calls at one instant exactly the first ones that the bucket's whole tokens pay for are admitted |
| RateLimiter.Limiter.EvictIdle | daemon/ratelimit.go:69-81 | the deletion loop keeps exactly the fresh buckets, or none when that frees no room |
| RateLimiter.FreshExactly | daemon/ratelimit.go:69-76 | a bucket survives an eviction iff it was seen within burst / rate seconds, to the nanosecond, plus sixty seconds |
| RateLimiter.AllowKeepsBounds | daemon/ratelimit.go:42-81 | after any call token counts are within 0..burst and the map holds at most maxKeys keys |
| RateLimiter.IdleIsFull | daemon/ratelimit.go:69-81 | a bucket idle long enough to be dropped has refilled completely |
| RateLimiter.TakeEffect | daemon/ratelimit.go:42-65 | a call is allowed iff the key's level is at least one token, costs one, and touches no other key |
| RateLimiter.AdmittedIsPaidFor | daemon/ratelimit.go:42-81 | over every run, admissions are covered by the starting level, refills and resets |
| RateLimiter.WindowBound | daemon/ratelimit.go:42-81 | in every window of every run one key is admitted at most burst * (1 + resets) + rate * (length in nanoseconds) / 1,000,000,000 times |
| RateLimiter.EvictionIsInvisible | daemon/ratelimit.go:42-81 | without a whole-map reset the bounded limiter answers every call as one that never forgets |
| RateLimiter.BoundedAnswersAsUnbounded | daemon/ratelimit.go:42-81 | the same refinement from any two states with equal levels |
| WebSocket.UintRoundTrip | plugins/cylonix-channel/index.ts:215-233 | a length written big-endian reads back |
| WebSocket.MaskInPlace | plugins/cylonix-channel/index.ts:207-210 | XORs the buffer with the repeated mask and nothing else |
| WebSocket.SendText | plugins/cylonix-channel/index.ts:215-238 | the assembled pieces are the standard's masked frame with first octet 0x81, the encoding the round trip is proved about |
| WebSocket.WrittenFrameParses | plugins/cylonix-channel/index.ts:163-238 | every written frame, followed by anything, parses to opcode 1, its payload and that rest |
| WebSocket.AnyFrameParses | plugins/cylonix-channel/index.ts:163-213 | a frame with any first octet, masked or not, in each of the three length forms, followed by anything, parses to the low four bits of that octet, its payload and that rest |
| WebSocket.WrittenFrameIsShortest | plugins/cylonix-channel/index.ts:215-233 | no masked encoding the parser accepts for the payload is shorter |
| WebSocket.ChunkingIsInvisible | plugins/cylonix-channel/index.ts:119-161 | every split of a byte stream into chunks gives the same frames up to the first close |
| WebSocket.FlushConcat | plugins/cylonix-channel/index.ts:140-161 | flushing a longer buffer is flushing its front and then what is left with the rest |
| WebSocket.RawWebSocketClient.OnData | plugins/cylonix-channel/index.ts:119-122 | a chunk hands exactly the flushed data frames to the waiters in order and keeps the incomplete rest; told from the bytes, a first octet with low nibble 8 closes the client, rejects every waiter and resolves none, any other gives the frame to the first waiter; the client is closed afterwards iff it was or a frame of opcode 8 was taken |
| WebSocket.FirstFrameDecides | plugins/cylonix-channel/index.ts:140-161 | the first frame in the buffer, told from its first octet: low nibble 8 closes and stops there; any other goes to the first waiter, closes nothing, and the rest is flushed as if it had come alone |
| WebSocket.RawWebSocketClient.FlushFrames | plugins/cylonix-channel/index.ts:140-161 | the extraction loop equals the flush function for every incremental parser; FirstFrameDecides says what that function does with each opcode |
| SocketProbe.Socket.RecvExact | scripts/cylonix_ws_raw_probe.py:12-19 | the loop returns the next n bytes or all that are left, however the reads are cut |
| SocketProbe.Socket.RecvFrame | scripts/cylonix_ws_raw_probe.py:22-43 | the blocking reader equals the function on the byte stream |
| SocketProbe.ProbeSendText | scripts/cylonix_ws_raw_probe.py:46-61 | the probe writes byte for byte what the plugin writes |
| SocketProbe.ReadersAgree | scripts/cylonix_ws_raw_probe.py:22-43 | where the plugin's parser finds a frame the probe reads the same one and leaves the same bytes; otherwise it drained a stream that was cut off |
| SocketProbe.UndetectedCutExactly | scripts/cylonix_ws_raw_probe.py:22-43 | the probe returns a full-length payload while the parser still waits iff the frame is masked and empty and the stream ends inside the mask |
| SocketProbe.CutMaskPassesForFrame | scripts/cylonix_ws_raw_probe.py:22-43 | the two octets 0x81 0x80 are such a stream |
| Paths.CleanKeepsMeaning | executor/sshexec/ssh.go:606-609 | cleaning keeps the components an absolute path names and is idempotent; ComponentsBelow says which components those are |
| Paths.ComponentsBelow | executor/sshexec/ssh.go:606-609 | one more component of an absolute path: a name is appended, ".." takes the last one away and stays at the root, "." and an empty one do nothing |
| Paths.CleanFollowsDots | executor/sshexec/ssh.go:606-609 | for every absolute p and name c, p/c/.. and p/. and p/ clean as p, /.. cleans to /, and p/c cleans to the cleaned p followed by c |
| Paths.RelativeComponentsBelow | policy/policy.go:336-341 | one more component of a relative path: only ".." after a name takes anything away, else it is kept |
| Paths.CleanFollowsDotsRelative | admin/ssh_targets.go:324-341 | the same laws for paths that are not absolute, which keep the ".." that climb above their start; the empty path cleans to "." |
| Paths.ClimbingOutIsRefused | admin/ssh_targets.go:350-364 | below a prefix, a path that climbs to the prefix is still under it and one that climbs above it is not |
| Paths.CleanIsCanonical | policy/policy.go:336-341 | two absolute paths clean alike iff they name the same components |
| Paths.CleanRelativeStaysRelative | executor/sshexec/ssh.go:602-606 | cleaning makes no relative path absolute |
| Paths.UnderExactly | admin/ssh_targets.go:350-364 | the string prefix test accepts iff the components extend the prefix's, except that "/" covers only itself |
| Paths.AllowsFilePath | admin/system_commands.go:510-521 | true iff the path is not empty and some prefix covers its cleaned form |
| Paths.AllowsPathByMeaning | admin/ssh_targets.go:350-364 | a path is allowed iff it is absolute and the components it names are allowed, so every spelling gets one answer |
| AppDef.PolicyContext | appdef/appdef.go:397-406 | the loop builds the context function, which holds no blank value |
| AppDef.ContextAt | appdef/appdef.go:383-406 | with distinct keys the context holds each parameter's trimmed value |
| AppDef.ContextExactly | appdef/appdef.go:383-406 | for any parameters a key is in the context iff a parameter of that policy key, or of that name where it has none, is given a value that is not blank; the last such parameter provides it, trimmed |
| AppDef.MissingRequired | daemon/service.go:577-585 | reports the flags of exactly the required parameters left blank, in order |
| Strings.TrimSpaceMiddle | daemon/service.go:580 | white space around a text that neither starts nor ends with any is trimmed, and nothing else |
| Strings.TrimSpaceBlank | daemon/service.go:580 | trimming leaves nothing iff the text is all white space |
| Strings.SpaceCharacters | daemon/service.go:580 | white space is the twenty-five characters of the Unicode property |
| Policy.Evaluate | policy/policy.go:241-285 | allows iff the action exists, some allow rule applies and no deny rule does, and reports the first deciding rule and why; without a rule to report none applies |
| Policy.AppliesExactly | policy/policy.go:250-341 | a rule applies to a request iff verb, agent, user and one of its groups fit and every constrained key is provided by an argument that is the same text or an absolute path to the same place; for a passthrough app only rules without constraints apply |
| Policy.CanonicalExactly | policy/policy.go:336-341 | two constraint values compare equal iff they are the same text or absolute paths with the same components |
| Policy.OrderIsIrrelevant | policy/policy.go:241-285 | any reordering or repetition of rules gives the same answer |
| Policy.DenyNeverGrants | policy/policy.go:241-285 | adding deny rules or removing allow rules never grants |
| Policy.RespellingIsIrrelevant | policy/policy.go:313-341 | respelling absolute path arguments never changes the answer |
| Policy.AddRule | policy/policy.go:140-155 | appends iff no stored rule is found equal |
| Policy.RulesEqualExactly | policy/policy.go:185-217 | rules count as equal iff five fields agree, the groups are the same set and not repeated in the second, and equally many constraints agree, an absent one passing for a blank |
| Policy.EqualToItselfExactly | policy/policy.go:185-217 | a rule is found equal to itself iff it lists no group twice |
| Policy.AddingTwiceExactly | policy/policy.go:140-155 | adding a rule again changes nothing iff it was stored before or lists no group twice |
| Policy.EqualRulesAgreeExactly | policy/policy.go:185-201 | rules found equal apply to the same requests iff the stored one has no blank constraint or the other has one |
| Policy.AddRuleDecidesAsAppended | policy/policy.go:140-155 | under that condition the stored rules decide every request as if the rule had been appended |
| Policy.BlankConstraintHidesRule | policy/policy.go:185-201 | a concrete stored rule that hides an effective new one |
| Passport.Permits | passport/scope.go:47-60 | true iff some capability of the verb permits the context |
| Passport.InScopeExactly | passport/scope.go:47-83 | which context value each parameter of a capability looks at and what it asks of it, read off the fields alone |
| Passport.CapCovers | passport/subset.go:53-68 | true iff every requested parameter is covered by the issuer's parameter of that key; CoversExactly says what covering means |
| Passport.ParamCoversExactly | passport/subset.go:77-105 | one parameter covers another iff every value the requested one lets through passes the issuer's, and a blank the request names is one the issuer names or leaves free |
| Passport.CoversExactly | passport/subset.go:53-68 | for distinct keys and values that are not blank, a request is covered iff it lists only declared keys and every context that gives its values and that it permits passes those parameters of the issuer; where it lists all the issuer constrains, that is the whole capability |
| Passport.CapInSurface | passport/subset.go:34-49 | true iff some surface capability of the verb covers the request |
| Passport.Subset | passport/subset.go:21-28 | no error iff every requested capability is in the surface; SubsetExactly says which ones are |
| Passport.SubsetExactly | passport/subset.go:21-49 | for distinct keys and values that are not blank, a scope is accepted iff each of its capabilities stays inside one of the same verb, so nothing that only narrows is refused |
| Passport.SubsetTransitive | passport/subset.go:21-105 | a subset of a subset is a subset |
| Passport.SubsetReflexive | passport/subset.go:21-105 | every surface with distinct parameter keys is a subset of itself |
| Passport.InclusionExactly | passport/subset.go:53-105 | every context a request permits is permitted by the issuer iff each issuer constraint is met by a requested constraint at least as tight |
| Passport.SubsetIsSound | passport/subset.go:21-105 | when requests for a verb list every key constrained for it, contexts with values for those keys inside the request are inside the surface |
| Passport.CoveredInclusionExactly | passport/subset.go:53-105 | a request the check accepts stays inside the issuer's capability for all contexts iff it lists every constrained key and pins every key pinned to a value |
| Passport.BareRequestEscapes | passport/subset.go:53-68 | a request without parameters passes the check against any capability of its verb and permits contexts the capability refuses |
| Passport.DeriveCapability | cli/share.go:237-272 | clones the first capability of the verb and pins exactly the named parameters, or fails on an unknown verb or parameter |
| Passport.NarrowedParameter | cli/share.go:245-262 | a pin under a parameter's name, else under its key, lets through that value alone; without a pin the parameter is unchanged |
| Passport.DerivedIsNarrower | cli/share.go:237-272 | a derived capability is inside its source iff every pin is a value the source lets through, and then it attenuates it for all contexts |
| Capabilities.Build | capabilities/capabilities.go:85-108 | advertises exactly the agent's allow rules as capabilities and its deny rules as denials |
| Capabilities.AdvertisedParameter | capabilities/capabilities.go:110-190 | a constraint of the rule pins the parameter to that value; otherwise it is free, except that an ssh target is one of the configured aliases and an ssh service one that the first target of the named alias allows |
| Capabilities.MatchesIsPinsMet | capabilities/capabilities.go:110-157 | a rule's constraints match a request iff the request meets the capability's pins |
| Capabilities.SurfaceIsExact | capabilities/capabilities.go:85-157 | a request is authorized iff it meets the pins of some advertised capability and no deny applies |
| Capabilities.DelegatedRequestIsAuthorized | daemon/reflector.go:194-234 | a request inside a scope that passed the subset check, with values for the keys constrained for its verb, is authorized for the issuer iff no deny applies |
| Service.Daemon.Handle | daemon/service.go:108-341 | the guard chain gives exactly the specified status and log entries, which the five laws below spell out; an audit whose append fails is missing from the log |
| Service.ExecutorReachedExactly | daemon/service.go:127-341 | an executor runs iff every guard holds, once, followed by one audit record; a refusal runs nothing; what each guard tests and answers is spelled out below |
| Service.AnsweredAtTheDoor | daemon/service.go:108-146 | a field left empty is invalid, the management verbs are refused over a reflected session and handled locally otherwise, and definitions that do not load are a configuration error; nothing runs or is recorded |
| Service.AnsweredAtLookup | daemon/service.go:144-166 | an app that is not installed, or neither bundled nor applied by root nor listed as enabled, is not found, nor is an unknown verb; a required value left out or blank is invalid; nothing runs or is recorded |
| Service.UnregisteredIsRefused | daemon/service.go:164-183 | an agent that is not registered is refused with one recorded denial |
| Service.DeniedBeforePolicy | daemon/service.go:185-243 | a folder of notes or a mailbox of mail that a keyword protects, and a request outside the passport scope, are refused with one recorded denial each, in that order |
| Service.AnsweredByPolicy | daemon/service.go:245-341 | a denial is refused and recorded; an allowed request does not run while the audit file cannot be written; otherwise it runs once as the principal, and its outcome decides status and record |
| Service.BlacklistedExactly | admin/admin.go:124-132 | a name is protected iff a keyword that is not empty occurs in it, whatever the case of its ASCII letters |
| Broker.VerifyScope | daemon/reflector.go:194-234 | accepts iff the agent is registered, the scope is not empty and each capability is covered by one the agent's own rules advertise |
| Broker.RunInvariant | reflector/manager.go:73-252 | in every interleaving the map holds exactly the running loops, and what a request logged, failed to log and has still to log is what it was decided to do |
| Broker.EveryExecutionIsAudited | daemon/service.go:269-341 | in every interleaving a request executes at most once, and once done its execution is followed by exactly one audit record of its own iff appending that record worked |
| Broker.UnrecordedExecution | daemon/service.go:461-473 | for every local request that may run there is a run that executes it and leaves no audit record |
| Broker.ReflectedAuthority | daemon/reflector.go:74-87 | in every run a reflected request reaches an executor only as the issuer, inside the scope it read and authorized by the policy it was decided under |
| Broker.ScopeReadAtDispatch | daemon/reflector.go:74-87 | in every run the scope a request is held to is the one its session had at the step that dispatched it, whatever extends the session later |
| Broker.ScopeWasChecked | daemon/reflector.go:115-234 | in every run the scope in force was set by the last open or extend of its session and was inside the surface of the agent that asked |
| Broker.ScopeInsideIssuers | daemon/reflector.go:115-187 | in every run the scope in force is inside the issuer's surface when the last agent to set it is the issuer or advertises nothing the issuer does not cover |
| Broker.SetterStaysInsideExactly | daemon/reflector.go:194-234 | under a configuration, every scope an agent may set is inside the issuer's surface iff each capability its rules advertise is covered by one the issuer's do |
| Broker.OnlyTheIssuerStaysInside | daemon/reflector.go:194-234 | over all configurations, every scope an agent may set is inside the issuer's surface iff it is the issuer |
| Broker.StrangerWidensScope | daemon/reflector.go:174-187 | wherever an agent advertises something the issuer does not cover, a run exists in which its extend takes the issuer's session outside the issuer's surface |
| Broker.AtMostOneLateDispatch | reflector/manager.go:154-176 | in every run at most one request is dispatched on a session after its cancellation, and a finished loop has left the map |
| Broker.SessionBound | reflector/manager.go:73-149 | with at most k opens in flight the running serve loops equal the live sessions and never exceed MaxSessions + k - 1 |
| Broker.RacingOpensReachBound | reflector/manager.go:73-149 | for every k some run reaches that bound |
| Broker.Manager.constructor | reflector/manager.go:51-65 | an unset limit means four sessions |
| Broker.Manager.CheckRoom | reflector/manager.go:73-84 | the first half of Open is refused iff the table is full |
| Broker.Manager.Insert | reflector/manager.go:128-149 | the second half of Open stores the session with whatever scope it is given, and keeps the table well formed for a fresh id |
| Broker.Manager.CloseSession | reflector/manager.go:230-239 | cancels a known session and leaves it in the map for its loop to remove |
| Broker.Manager.ExtendSession | reflector/manager.go:243-252 | replaces the scope of a known session by any scope |
| Broker.Manager.TearDown | reflector/manager.go:221-227 | the id leaves the map when the loop ends |
| Spool.SpoolRoundTrip | cpclient/client.go:224-268 | what is written as lines reads back as the same events |
| Spool.TrimExactly | cpclient/client.go:247-268 | trimming keeps the longest suffix of whole lines that is below the limit |
| Spool.SpoolKeepsSuffix | cpclient/client.go:224-268 | what is read back after a failed flush is the surviving suffix of the batch |
| Spool.Client.Record | cpclient/client.go:115-126 | a channel of 1024 events drops and counts the new one and touches nothing else; otherwise it is queued last |
| Spool.Client.Receive | cpclient/client.go:148-172 | keeps accepted == settled ++ spool ++ pending ++ channel in order and no event lost while there is a spool; the 256th pending event flushes the batch, an earlier one only joins it |
| Spool.Client.Tick | cpclient/client.go:148-172 | a successful tick delivers spool and pending in order |
| Spool.Client.Shutdown | cpclient/client.go:148-178 | after draining, every accepted event is delivered, trimmed, in the spool, or lost only for want of a spool path |
| Spool.Client.Flush | cpclient/client.go:182-194 | success delivers spool and pending; failure spools them and trims only what exceeds the limit, oldest first, or loses them without a spool path |
| TokenStore.FileStore.MintWith | authtoken/filestore.go:116-150 | minting makes the token resolve to the minted identity, appends one row under its first twelve characters, retires the agent's other tokens and nobody else's, or refuses and changes nothing |
| TokenStore.FileStore.ResolveFull | authtoken/filestore.go:166-195 | the first-match loop equals the lookup in the table of live tokens; anything shorter than twelve characters or without the lead osk_ resolves to nothing |
| TokenStore.FileStore.Revoke | authtoken/filestore.go:199-220 | retires exactly the tokens of the agent or of that twelve-character prefix, and counts the active rows it marks |
| TokenStore.MarkRevoked | authtoken/filestore.go:199-215 | marks exactly the matching rows and counts the places of those that were active |
| TokenStore.MintedUntilRetired | authtoken/filestore.go:116-220 | a minted token resolves to its identity over every later run iff it is neither revoked by agent or prefix nor rotated, and starts as the agent's only live one |
| TokenStore.ResolvesUntilRetiredExactly | authtoken/filestore.go:116-220 | a live token keeps resolving to the same identity over every run of mints and revokes iff no operation retires it |
| TokenStore.RevokedUntilNextMint | authtoken/filestore.go:116-220 | over every run of mints and revokes, a revoked agent has no live token until its next mint |
| Definitions.AssembleDefinitions | appdef/applied.go:201-246 | succeeds iff no two definitions of an app that count disagree on executor or security mode; each verb of the result is the registry's, else the trusted user's, else the bundled one |
| Definitions.FoldsExactly | appdef/applied.go:100-148 | a sequence of overlays merges iff the definitions of each app agree pairwise, whatever their order |
| Definitions.MergeIntoLookup | appdef/applied.go:100-148 | merging gives the overlay's verb where it has one and keeps all others |
| Definitions.RootAppliedExactly | appdef/applied.go:33-67 | an assembled action is root-applied iff the registry defines it, and then equals the registry's action |
| Definitions.SystemModeCommandsAreTrusted | appdef/applied.go:201-293 | in system mode every command template comes from the bundled set or the registry |
| Definitions.UserVerbExactly | appdef/applied.go:207-222 | the user's verb that counts is the last one defined, in system mode among those whose command is blank; only those with a command are dropped |
| Definitions.AppFlagsExactly | appdef/applied.go:100-148 | an assembled app is bundled iff the bundled set has it and root-applied iff the registry names it, whichever source its verbs come from |
| Definitions.MergeDefinitionList | appdef/applied.go:152-164 | fails iff the first entry of that name has another executor or security mode; otherwise the definition's verbs win and all other verbs of the registry stay |
| Definitions.MergedAllExactly | appdef/applied.go:152-164 | a registry with one entry per app takes a list of definitions iff no two definitions of an app disagree on executor or security mode, and then stands for the merged namespace |
| Definitions.RemoveDefinitionAction | appdef/applied.go:168-192 | removes exactly the verb, or the app, and nothing else |
| AdminConfig.NormalizeList | admin/ssh_targets.go:306-341 | the result is strictly sorted and holds exactly the shaped entries that are not blank |
| AdminConfig.NormalizedExactly | admin/ssh_targets.go:306-341 | a normalised list holds exactly the entries that are not blank, trimmed, and then as they are, in upper case, or cleaned, by the form of the list |
| AdminConfig.BeforeExactly | admin/ssh_targets.go:320 | lists are sorted by the first difference, a beginning of a text standing before it |
| AdminConfig.SortedFormUnique | admin/ssh_targets.go:306-341 | a normalised list is determined by what it holds, whatever order and repetition it came in |
| AdminConfig.NormalizeTwice | admin/ssh_targets.go:269-304 | normalising again changes nothing once all entries are settled |
| AdminConfig.PathSettlesExactly | admin/ssh_targets.go:324-341 | a path entry is unchanged by a second normalisation iff its cleaned form does not end in white space |
| AdminConfig.PathListStaysExactly | admin/ssh_targets.go:103-147 | a normalised path list survives any number of later loads and saves iff no entry's cleaned form ends in white space |
| AdminConfig.SettingsSettle | admin/ssh_targets.go:292-304 | a target with settled paths is stored as normalised once |
| AdminConfig.SettingsSettleExactly | admin/ssh_targets.go:292-304 | valid settings survive a second normalisation iff no path entry's cleaned form ends in white space |
| AdminConfig.ProposedValidExactly | admin/ssh_targets.go:228-267 | settings are valid once normalised iff host and user are not blank, the port is within 0..65535, the criticality is one of four and every path entry that is not blank is absolute |
| AdminConfig.ValidStays | admin/ssh_targets.go:228-304 | normalising valid settings keeps them valid |
| AdminConfig.MergeValues | proposal/proposal.go:334-370 | holds exactly what is live or added and not removed, in order |
| AdminConfig.MergedInOrder | proposal/proposal.go:334-370 | live values that stay keep their order, and an addition follows everything before it unless it is there already or removed |
| AdminConfig.EffectiveSystemMeans | proposal/proposal.go:296-332 | what the effective system configuration grants, list entry by list entry, port by port, flag by flag, and each manager with its settings |
| AdminConfig.ManagerRemovalIsIgnored | proposal/proposal.go:296-303 | managers a proposal lists for removal stay as they are |
| AdminConfig.SystemSettles | admin/system_commands.go:571-594 | a written system configuration reads back unchanged once its paths are settled |
| AdminConfig.SystemListsExactly | admin/system_commands.go:571-612 | signals and team ids are put in upper case, prefixes and directories cleaned, the other lists only trimmed |
| AdminConfig.SavedSystemExactly | admin/system_commands.go:523-569 | a configuration can be saved iff each manager has a name and an absolute binary and the entries of five path lists are absolute; package prefixes are not checked |
| Apply.EffectiveTargets | proposal/live.go:55-82 | lists exactly the live and added targets that are not removed, live ones winning, in order of first appearance |
| Apply.ApplyMatchesPlanExactly | cli/plan.go:494-516 | on settled live targets a successful apply leaves the targets plan computed iff no alias is both added and removed and every newly stored target is settled |
| Apply.StoredSettledByPaths | admin/ssh_targets.go:153-175 | newly stored targets are settled iff none of their path entries' cleaned forms ends in white space |
| Apply.JoinTellsApartExactly | cli/plan.go:646-654 | comparing comma-joined lists tells a list from all lists without commas iff it has no comma itself |
| Apply.SameSettingsExactly | cli/plan.go:646-654 | settings without commas in their lists compare equal iff they are equal |
| Apply.UnsettledPathDrifts | admin/ssh_targets.go:153-175 | a concrete proposal whose stored path differs from the reviewed one |
| Apply.Disk.AddTarget | cli/plan.go:500-516 | success means the target is stored, or the stored one agrees with it as apply compares them, lists joined by commas; with a working disk an acceptable addition succeeds |
| Apply.AdditionRefusedExactly | cli/plan.go:500-516 | an addition is refused iff alias, host or user is blank, port or criticality is out of range, a path entry is relative, or the alias is stored with settings that differ |
| Apply.Disk.RemoveTarget | admin/ssh_targets.go:177-200 | exactly the trimmed alias is gone from the file; with a working disk and a file that loads the removal succeeds |
| Apply.Disk.ApplyTargets | cli/plan.go:494-516 | success leaves the applied targets; without target changes the file is not read; with a working disk it succeeds iff the file loads and no addition is refused |
| Apply.EditRegistry | cli/plan.go:560-572 | each verb is the last added one, else what was there unless removed; it fails iff an addition conflicts |
| Apply.EditedRegistryExactly | cli/plan.go:560-572 | a registry with one entry per app can be edited as proposed iff, once the removals are made, no two definitions of an app disagree on executor or security mode |
| Apply.Disk.ApplyAppDefinitions | cli/plan.go:556-580 | success leaves the edited registry and implies that the whole namespace assembles with it; a registry that does not load changes nothing; with a working disk it succeeds iff the registry loads, its edits do not conflict and the result assembles |
| Apply.Disk.ApplyRules | cli/plan.go:537-549 | what was there and agrees with no removed rule in effect, agent, verb and constraints stays, only proposed rules are new, and every proposed rule or its equal is there; with a working disk it succeeds iff the policy file loads |
| Apply.RemoveEqual | policy/policy.go:159-183 | exactly the rules that agree with the given one in effect, agent, verb and constraints are gone, whatever user and groups they name |
| Apply.RemovalIsTargetedExactly | cli/plan.go:687-700 | a removal deletes only rules that apply to the same requests as the named one iff every stored rule it is taken for names the same user and groups, or both can apply to nothing |
| Apply.TargetedRemovalGrantsOnlyItsOwn | cli/plan.go:537-549 | under that condition a removal newly allows only requests the named deny rule itself applied to |
| Apply.RemovingOneDenyGrantsAnother | cli/plan.go:687-700 | removing alice's deny takes bob's along and grants bob the verb |
| Apply.Disk.Snapshot | cli/plan.go:663-675 | records content or absence of every path |
| Apply.Disk.Restore | cli/plan.go:677-685 | each snapshotted file ends as its own restoring operation leaves it, which may fail or cut it short; nothing else changes |
| Apply.Disk.ApplyMutations | cli/plan.go:494-549 | the mutations together do all four parts, each as its own row says, and touch only the four files; with a working disk they succeed iff each part is acceptable |
| Apply.Disk.ApplyProposal | cli/plan.go:458-475 | success carries out all four parts, and on settled live targets leaves the planned targets iff the exact condition above holds; with a working disk it succeeds iff targets, system, registry and rules are acceptable and otherwise changes nothing; after a failure the disk is as it was iff every restoring operation works or does no harm |
| Apply.Disk.RestoredExactly | cli/plan.go:677-685 | the exact condition on the four restoring operations, file by file |
| Apply.PartlyAppliedRun | cli/plan.go:458-475 | a run that fails on the registry and, with one failing restore, keeps the new system file |

## Left out

- Transport (HTTP, Unix sockets, long polling, the relay's mailbox): the relay is an arbitrary step of the protocol instead.
- Real cryptography, randomness, base64, JSON and YAML: symbolic or lossless stand-ins; freshness of keys is structural.
- The signature over the daemon's ephemeral key and the sealing of the connect secret to a recipient: represented by the premise that the handle names an honest daemon key.
- Frame tags and message encoding (reflector/frame.go): lossless and easy, so frames are values.
- Session expiry by clock: expiry is a step that may happen at any time.
- Protocol.RunInvariant: holds while no counter wraps, as the sealing counter is 64 bits wide; wrap-around itself is in the record layer.
- SymbolicCrypto.ParsePublic: symbolic; a real parser takes any 32 octets for a public key, here only those of some key pair.
- ShellCommand.RenderedCommandReadsAsTemplate: claims nothing about templates in which the lexer gives up before the last placeholder (here-documents, doubled parentheses, `case` inside a command substitution, quotes or nested expansions inside arithmetic, braces or backquotes).
- CommandAction.RenderCommand: leaves out stdin, the local upload source with its symbolic-link resolution, and the verify retry loop.
- SystemArgv.RunSystemCommand: does not state which error a refusal carries; the bundled system verbs are not modelled.
- Broker.ReflectedAuthority: the configuration files a request is decided under are read at one moment; audit records of the control verbs are not modelled.
- Broker.SessionBound: session ids are fresh; the program draws 64 random bits for each.
- EndToEnd.ReturnedResponseIsOfItsRun: parsing of request text and rendering of an answer from a finished run are any functions.
- RateLimiter.Limiter.AllowKey: exact reals instead of floating point, and no overflow of the idle duration.
- WebSocket.WrittenFrameParses: lengths are exact; rounding of lengths from 2^53 on is not modelled, nor are timeouts and reading a frame without waiting.
- Capabilities.Build: leaves out the display order, hint prose and the example command line.
- Service.Daemon.Handle: leaves out the bodies of control verbs and of the bypass inspection; the outcome of a run and of the mail filter is an input.
- Spool.Client.Flush: file operations succeed; the HTTP request is an input that succeeds or fails.
- TokenStore.FileStore.MintWith: the token hash is injective, and the fresh token is an input.
- Definitions.AssembleDefinitions: leaves out files that do not load, the ownership check of the registry file and definition validation.
- AdminConfig.NormalizeList: upper-casing covers ASCII letters only.
- AdminConfig.SystemSettles: package managers are a map by name, since duplicate names are refused.
- Apply.Disk.ApplyProposal: leaves out the SSM targets file, which is outside the snapshot, snapshots that cannot be read, file modes, the audit entries and the legacy policy file removed after success; target aliases in the file are unique and trimmed, the four file names are distinct; the order of registry entries is not modelled.
- The namespace plan lints (EffectiveDefs in proposal/proposal.go), lint rules, effect classifiers, plan rendering and reports.
- executor/ssmexec: repeats the quoting and path checks of the ssh executor.
- File ownership and permission probes, process execution, the console and router module: decided by the operating system or outside the core.
