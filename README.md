# sniffy, modelled in Dafny

Sniffy counts what an application does through JDBC and sockets so that a
test can check it. A `Spy` records the SQL statements executed while it is
open, together with the socket operations and the network traffic behind
them, and checks them against expectations: a number of queries in a range,
of a kind, on the current thread, in other threads or in any thread. When
it is verified, every expectation that fails becomes an error, and the
errors are chained through their causes. The library also blocks or
allows connections through a registry, injects a small report into HTML
pages served through its servlet filter, and evaluates query-count
annotations in JUnit tests.

This project models the core of that behaviour:

- the legacy JDBC sniffer's `Spy` (`LegacySpy`), with its expectations,
  verification, `execute` and `call`, and the error that reports a wrong
  number of statements (`WrongNumberOfRows`, `ErrorChain`);
- the sniffy-core `Spy` (`SniffySpy`): its views of the executed
  statements and socket operations, the grouping of captured traffic by
  socket and the merging of adjacent packets (`Grouping`, `Traffic`),
  and its own verification;
- `NetworkPacket` and `SocketMetaData`, the values that traffic is
  grouped under (`NetworkPackets`, `SocketMeta`);
- `ConnectionsRegistry`: resolving a socket address or a data source to
  OPEN or CLOSED, and its JSON rendering;
- `Range`, which turns the value/min/max of an annotation into a range;
- the two SQL statement classifiers (`SqlQuery`, `SqlStatementMetaData`);
- the text helpers: `ExceptionUtil.generateMessage` and
  `StackTraceExtractor` (`ExceptionUtil`, `StackTraceExtractor`,
  `StackFrames`);
- the servlet side: `BufferedServletOutputStream` (`BufferedStream`) and
  the HTML that `SnifferFilter` injects (`SnifferFilterHtml`);
- the JUnit `QueryCounter` rule (`QueryCounter`);
- the Java-version gate of the nio compatibility module (`CompatVersion`).

`Wrappers` holds the Option/Result/Outcome datatypes that stand for null
and for thrown exceptions. `JavaText` holds the parts of `java.lang` the
core relies on: 32-bit `int` with explicit wrap-around, `Integer.toString`,
`Integer.parseInt`, `String.trim`, `toLowerCase`, `startsWith` and
`indexOf`.

Whatever the core reads from its environment is a parameter of the model:

- the global statement and socket counters of `Sniffer`;
- the verdict the recorded statements give on an expectation;
- the current stack trace and the current thread's id;
- `java.version`;
- the filter's script address, and the random UUID of a request;
- the identity hash codes and interned strings behind `SocketMetaData`;
- the class resolution (`Class.forName` followed by `isAssignableFrom`)
  used by `StackTraceExtractor`;
- the annotations `QueryCounter` reads by reflection, given as values
  for the test method and for each class up its hierarchy.

Operations that change an object's fields in place are methods of a
`class` that carries those fields: the two `Spy`s, `NetworkPacket`, the
registry, the buffered stream and the filter's cache. Each method's
`ensures` ties the new state to a function of the old state. The
properties of those functions are lemmas.

The model follows the code where the prose description of the system
differs from it:

- `Query.Type.ALL`, which the legacy `Spy` uses, is not in the `Query`
  type shown; it is modelled as `QueryType = ALL | Kind(kind)`.
- The sniffy-core `Spy` builds `SocketMetaData` with a protocol and
  possibly no owning thread. The `SocketMetaData` shown has neither, so
  they are optional fields of the key.
- The registry shown knows only OPEN and CLOSED. It has no delay
  statuses and no thread-local table, so neither is modelled. Its maps
  are `ConcurrentHashMap`s, so entries are not taken in insertion order.
  The model leaves that order open and proves results that do not
  depend on it.

## Model

| member | source | states |
|---|---|---|
| CompatVersion.Before | sniffy-module-nio-compat/src/main/java/io/sniffy/nio/compat/SniffyCompatSelectorProviderModule.java:15-16 | the text kept before the first occurrence of a character never contains that character |
| CompatVersion.VersionText | sniffy-module-nio-compat/src/main/java/io/sniffy/nio/compat/SniffyCompatSelectorProviderModule.java:5-17 | the text handed to Integer.parseInt: it fails with StringIndexOutOfBoundsException exactly when the version starts with "1." and has fewer than three characters, and it never contains '-' |
| CompatVersion.GetVersion | sniffy-module-nio-compat/src/main/java/io/sniffy/nio/compat/SniffyCompatSelectorProviderModule.java:5-18 | NumberFormatException exactly when the version text is not a decimal int; otherwise the result is that text parsed |
| CompatVersion.InstallsCompatProvider | sniffy-module-nio-compat/src/main/java/io/sniffy/nio/compat/SniffyCompatSelectorProviderModule.java:21-27 | initialize goes on to install the compatibility provider exactly when the version parses and is below 8 |
| CompatVersion.LegacyScheme | sniffy-module-nio-compat/src/main/java/io/sniffy/nio/compat/SniffyCompatSelectorProviderModule.java:7-8 | a version "1.<d>..." gives the digit d |
| CompatVersion.ModernText | sniffy-module-nio-compat/src/main/java/io/sniffy/nio/compat/SniffyCompatSelectorProviderModule.java:9-17 | for a version "<n>.<rest>" or "<n>-<rest>" not starting with "1.", the text parsed is the decimal n |
| CompatVersion.ModernScheme | sniffy-module-nio-compat/src/main/java/io/sniffy/nio/compat/SniffyCompatSelectorProviderModule.java:9-18 | such a version gives n |
| CompatVersion.PlainNumber | sniffy-module-nio-compat/src/main/java/io/sniffy/nio/compat/SniffyCompatSelectorProviderModule.java:9-18 | a version that is just the decimal n (not starting with "1.") gives n |
| CompatVersion.Java8 | sniffy-module-nio-compat/src/main/java/io/sniffy/nio/compat/SniffyCompatSelectorProviderModule.java:5-23 | "1.8.0_181" gives 8 and installs nothing; "1.7.0_80" installs the provider |
| CompatVersion.Java11 | sniffy-module-nio-compat/src/main/java/io/sniffy/nio/compat/SniffyCompatSelectorProviderModule.java:9-13 | "11.0.2" gives 11 |
| CompatVersion.Java17EarlyAccess | sniffy-module-nio-compat/src/main/java/io/sniffy/nio/compat/SniffyCompatSelectorProviderModule.java:15-17 | "17-ea" gives 17 |
| CompatVersion.TooShortLegacy | sniffy-module-nio-compat/src/main/java/io/sniffy/nio/compat/SniffyCompatSelectorProviderModule.java:8 | "1." fails with StringIndexOutOfBoundsException |
| CompatVersion.NotANumber | sniffy-module-nio-compat/src/main/java/io/sniffy/nio/compat/SniffyCompatSelectorProviderModule.java:18 | "ea" fails with NumberFormatException |
| StackTraceExtractor.PrintStackTrace | src/main/java/io/sniffy/trace/StackTraceExtractor.java:40-54 | the StringBuilder loop's result equals the function Printed: "" for null, otherwise every frame's text followed by the separator, with the last character cut off |
| StackTraceExtractor.LinesAreJoinPlusSeparator | src/main/java/io/sniffy/trace/StackTraceExtractor.java:44-48 | for a non-empty list the loop builds the join of the frame texts followed by one more separator |
| StackTraceExtractor.NothingPrintsEmpty | src/main/java/io/sniffy/trace/StackTraceExtractor.java:41-53 | null and an empty list print as "" |
| StackTraceExtractor.PrintedShape | src/main/java/io/sniffy/trace/StackTraceExtractor.java:49-50 | for a non-empty list the result is the join followed by all of the separator but its last character |
| StackTraceExtractor.PrintedIsJoinForOneCharSeparator | src/main/java/io/sniffy/trace/StackTraceExtractor.java:44-50 | with a one-character separator the result is exactly the join of the frame texts |
| StackTraceExtractor.PrintedKeepsCarriageReturn | src/main/java/io/sniffy/trace/StackTraceExtractor.java:45-50 | with the separator "\r\n" one frame prints as its text followed by a stray "\r" |
| StackTraceExtractor.PrintedJoinedCorrect | src/main/java/io/sniffy/trace/StackTraceExtractor.java:44-50 | the corrected printer removes exactly the trailing separator whatever its length, and agrees with printStackTrace for one-character separators |
| StackTraceExtractor.TraceForProxiedMethod | src/main/java/io/sniffy/trace/StackTraceExtractor.java:13-38 | the loop with its break and early ClassNotFoundException equals the function ProxiedTrace |
| StackTraceExtractor.FirstProxyMeaning | src/main/java/io/sniffy/trace/StackTraceExtractor.java:19-28 | the search finds the first frame whose class name contains "Proxy" and is a subtype of the base class, with every earlier frame passed over; or none, every frame passed over; or a ClassNotFoundException at the first "Proxy" frame that cannot be resolved |
| StackTraceExtractor.NoProxyKeepsAll | src/main/java/io/sniffy/trace/StackTraceExtractor.java:29-31 | with no proxy frame the captured stack is returned unchanged |
| StackTraceExtractor.ProxyAt | src/main/java/io/sniffy/trace/StackTraceExtractor.java:33-36 | a proxy at i gives the synthetic base frame followed by frames i+1 to len-2; a proxy at the last frame makes Arrays.copyOfRange throw IllegalArgumentException |
| ExceptionUtil.GenerateMessage | src/main/java/com/github/bedrin/jdbc/sniffer/util/ExceptionUtil.java:52-58 | the StringBuilder loop returns the function Message: s followed by separator, "\tat " and the frame's text for every frame in order |
| ExceptionUtil.NoFramesNoChange | src/main/java/com/github/bedrin/jdbc/sniffer/util/ExceptionUtil.java:53-57 | with no frames the message is s itself |
| ExceptionUtil.MessageExtends | src/main/java/com/github/bedrin/jdbc/sniffer/util/ExceptionUtil.java:53-56 | appending frames only extends the message: every earlier state of the builder, and s itself, is a prefix of the result |
| ExceptionUtil.FrameLineInPlace | src/main/java/com/github/bedrin/jdbc/sniffer/util/ExceptionUtil.java:54-55 | the line of frame k sits right after the lines of frames 0..k-1, so lines appear in array order |
| ExceptionUtil.MessageLength | src/main/java/com/github/bedrin/jdbc/sniffer/util/ExceptionUtil.java:54-55 | the message's length is \|s\| plus, per frame, the separator's length, 4 and the frame text's length |
| Range.ParseCount | src/main/java/io/sniffy/util/Range.java:18-30 | parse(Count) throws IllegalArgumentException, with the atLeast/atMost message, exactly when the value is set together with min or max; otherwise it returns the three fields unchanged, never ambiguous |
| Range.ParseExpectationCorrect | src/main/java/io/sniffy/util/Range.java:32-74 | parse(Expectation) succeeds exactly when no attribute is set both on the expectation and on its count and the merged attributes do not combine a value with a bound; each result field is whichever source field is set, or -1; the result is never ambiguous |
| Range.OwnAmbiguityRejected | src/main/java/io/sniffy/util/Range.java:40-42 | the expectation's own value together with atLeast or atMost is rejected with the first message, whatever the count says |
| Range.OwnAmbiguityAlsoCaughtLater | src/main/java/io/sniffy/util/Range.java:40-70 | the first check only decides the message: the later checks reject the same annotations |
| Range.BothSetRejected | src/main/java/io/sniffy/util/Range.java:44-58 | a value, or a min, set both on the expectation and on its count is rejected with the message naming that attribute |
| Range.ValueWithAtLeastRejected | sniffy-test/sniffy-test-common/src/test/java/io/sniffy/test/AnnotationProcessorTest.java:38-44 | an expectation with value 3, atLeast 2 and atMost 5 is rejected with the atLeast/atMost message |
| Range.CountValueAdopted | src/main/java/io/sniffy/util/Range.java:44-50 | a count value with nothing set on the expectation is adopted |
| Range.MergedAmbiguityRejected | src/main/java/io/sniffy/util/Range.java:68-70 | an expectation value with a count min passes each adoption step but is rejected by the final check |
| SqlQuery.Parse | src/main/java/com/github/bedrin/jdbc/sniffer/sql/Query.java:19-40 | null stays null; any other text gets the type its trimmed, lower-cased form is classified as |
| SqlQuery.ClassifyIff | src/main/java/com/github/bedrin/jdbc/sniffer/sql/Query.java:27-37 | SELECT exactly for the prefixes "select " and "with "; INSERT, UPDATE and DELETE exactly for their keyword with its space; "merge " gives OTHER |
| SqlQuery.ClassifyIgnoresCase | src/main/java/com/github/bedrin/jdbc/sniffer/sql/Query.java:23 | texts that differ only in letter case get the same type |
| SqlQuery.ClassifyIgnoresSurroundingWhitespace | src/main/java/com/github/bedrin/jdbc/sniffer/sql/Query.java:23 | surrounding whitespace does not change the type |
| SqlQuery.ParseOfNormal | src/main/java/com/github/bedrin/jdbc/sniffer/sql/Query.java:23-39 | text already trimmed and in lower case is classified as it stands |
| SqlQuery.CommonTableExpressionIsSelect | src/main/java/com/github/bedrin/jdbc/sniffer/sql/Query.java:27-28 | a statement starting with "with " is a SELECT |
| SqlQuery.MergeIsOther | src/main/java/com/github/bedrin/jdbc/sniffer/sql/Query.java:35-37 | "merge into t" is OTHER: this classifier has no MERGE |
| SqlStatementMetaData.Parse | src/main/java/com/github/bedrin/jdbc/sniffer/sql/StatementMetaData.java:20-45 | null stays null; otherwise the original, un-normalised sql is stored with the kind of its normalised form and the calling thread as owner |
| SqlStatementMetaData.ClassifyIff | src/main/java/com/github/bedrin/jdbc/sniffer/sql/StatementMetaData.java:28-42 | each kind but OTHER is chosen exactly when the normalised text starts with its keyword and a space; OTHER exactly when it starts with none of them |
| SqlStatementMetaData.ClassifyIgnoresCase | src/main/java/com/github/bedrin/jdbc/sniffer/sql/StatementMetaData.java:24 | texts that differ only in letter case get the same kind |
| SqlStatementMetaData.ClassifyIgnoresSurroundingWhitespace | src/main/java/com/github/bedrin/jdbc/sniffer/sql/StatementMetaData.java:24 | surrounding whitespace does not change the kind |
| SqlStatementMetaData.ParseOfNormal | src/main/java/com/github/bedrin/jdbc/sniffer/sql/StatementMetaData.java:24-44 | text already trimmed and in lower case is classified as it stands |
| SqlStatementMetaData.NewlineAfterKeywordIsOther | src/main/java/com/github/bedrin/jdbc/sniffer/sql/StatementMetaData.java:28 | "select\n1" is OTHER: the keyword must be followed by a space |
| SqlStatementMetaData.MergeIsMerge | src/main/java/com/github/bedrin/jdbc/sniffer/sql/StatementMetaData.java:37-39 | "merge into t" is MERGE |
| NetworkPackets.JoinsMeaning | sniffy-core/src/main/java/io/sniffy/socket/NetworkPacket.java:21-22 | for non-negative timestamps a packet joins exactly when it has the same direction and is at most maxDelay later; one that is not later always joins when maxDelay is not negative; the other direction never joins |
| NetworkPackets.NetworkPacket.constructor | sniffy-core/src/main/java/io/sniffy/socket/NetworkPacket.java:14-18 | for a range inside the array, the packet keeps its direction and timestamp and exactly traffic[off..off+len); other ranges are NewNetworkPacket's |
| NetworkPackets.NewNetworkPacket | sniffy-core/src/main/java/io/sniffy/socket/NetworkPacket.java:14-18 | IndexOutOfBoundsException exactly for a range outside the array; otherwise a new packet with the direction, timestamp and exactly traffic[off..off+len) |
| NetworkPackets.NetworkPacket.CombineTraffic | sniffy-core/src/main/java/io/sniffy/socket/NetworkPacket.java:20-25 | false when the direction differs or the long difference of the timestamps exceeds maxDelay; past that test, IndexOutOfBoundsException exactly for a range outside the array, else true; the bytes gain traffic[off..off+len) exactly on true and are unchanged otherwise |
| NetworkPackets.NetworkPacket.Combine | sniffy-core/src/main/java/io/sniffy/socket/NetworkPacket.java:27-33 | the same test against the other packet; on success the bytes become the old bytes followed by the other packet's bytes, direction and timestamp unchanged; on failure nothing changes |
| NetworkPackets.NetworkPacket.GetBytes | sniffy-core/src/main/java/io/sniffy/socket/NetworkPacket.java:43-45 | returns everything written so far |
| NetworkPackets.NetworkPacket.CompareTo | sniffy-core/src/main/java/io/sniffy/socket/NetworkPacket.java:47-51 | -1, 0 or 1 by timestamp only: 0 exactly when the timestamps are equal |
| NetworkPackets.CompareToIsOrder | sniffy-core/src/main/java/io/sniffy/socket/NetworkPacket.java:47-51 | compareTo is antisymmetric in sign and transitive |
| SocketMeta.New | sniffy-core/src/main/java/io/sniffy/socket/SocketMetaData.java:29-36 | the constructor keeps the address, connection id and thread metadata, interns the stack trace (same text, the pool's canonical copy; null stays null) and copies the owner thread id from the thread metadata |
| SocketMeta.EqualsIsIdentity | sniffy-core/src/main/java/io/sniffy/socket/SocketMetaData.java:46-59 | equals holds exactly when connection id, thread id, IP address, port and stack-trace reference agree; the host name, which `InetSocketAddress.equals` ignores, does not take part |
| SocketMeta.HostNameIgnored | sniffy-core/src/main/java/io/sniffy/socket/SocketMetaData.java:55 | keys for the same IP address and port looked up as "localhost" and as "127.0.0.1" are equal, and a different port makes them unequal |
| SocketMeta.EqualsIsEquivalence | sniffy-core/src/main/java/io/sniffy/socket/SocketMetaData.java:46-59 | equals is reflexive, symmetric and transitive, and false for null and for objects of another class |
| SocketMeta.InternedComparesText | sniffy-core/src/main/java/io/sniffy/socket/SocketMetaData.java:32-57 | for instances built by the constructor the reference comparison of stack traces is a comparison of their texts |
| SocketMeta.EqualsImpliesSameHash | sniffy-core/src/main/java/io/sniffy/socket/SocketMetaData.java:35-64 | equal instances built by the constructor have the same cached hash code, given that the address and thread hashes follow their own equals |
| ConnectionsRegistry.Resolve | sniffy-core/src/main/java/io/sniffy/registry/ConnectionsRegistry.java:39-76 | the answer is CLOSED exactly when some stored entry that matches is CLOSED, whatever the iteration order; then the map is unchanged, otherwise the key is upserted as OPEN |
| ConnectionsRegistry.ResolveIdempotent | sniffy-core/src/main/java/io/sniffy/registry/ConnectionsRegistry.java:51-53 | resolving again with the same arguments gives the same answer and leaves the map as the first resolve left it |
| ConnectionsRegistry.FindBlocked | sniffy-core/src/main/java/io/sniffy/registry/ConnectionsRegistry.java:41-49 | the loop over the entries finds a non-OPEN status exactly when a matching entry is blocked, and that status is CLOSED |
| ConnectionsRegistry.Fields | sniffy-core/src/main/java/io/sniffy/registry/ConnectionsRegistry.java:172-183 | the members written for the two fields: none exactly when both are null |
| ConnectionsRegistry.FieldsJsonIsJoin | sniffy-core/src/main/java/io/sniffy/registry/ConnectionsRegistry.java:172-183 | the fields as writeTo writes them are the comma-separated join of the members present |
| ConnectionsRegistry.EntryJsonWithFields | sniffy-core/src/main/java/io/sniffy/registry/ConnectionsRegistry.java:172-188 | an entry with at least one non-null field is a well-formed object: its members joined by commas |
| ConnectionsRegistry.EntryJsonWithoutFields | sniffy-core/src/main/java/io/sniffy/registry/ConnectionsRegistry.java:172-188 | an entry with both fields null renders as "{," followed by the status member: the comma is written unconditionally |
| ConnectionsRegistry.EntryJsonFixedOpensWithMember | sniffy-core/src/main/java/io/sniffy/registry/ConnectionsRegistry.java:172-188 | the corrected entry always opens with a member, never with a comma |
| ConnectionsRegistry.WriteEntries | sniffy-core/src/main/java/io/sniffy/registry/ConnectionsRegistry.java:163-191 | the iterator loop writes every key of the map exactly once, in some order, each entry rendered, with a comma between entries and none trailing |
| ConnectionsRegistry.WriteSection | sniffy-core/src/main/java/io/sniffy/registry/ConnectionsRegistry.java:159-197 | a section is written only when its map is not empty: the opening, the entries and "]" |
| ConnectionsRegistry.WriteRegistry | sniffy-core/src/main/java/io/sniffy/registry/ConnectionsRegistry.java:152-241 | writeTo produces the opening brace with the persistent flag, then the sockets section, then the data sources section, then "}" |
| ConnectionsRegistry.Registry.constructor | sniffy-core/src/main/java/io/sniffy/registry/ConnectionsRegistry.java:27-29 | both maps start empty and persistRegistry false |
| ConnectionsRegistry.Registry.ResolveDataSourceStatus | sniffy-core/src/main/java/io/sniffy/registry/ConnectionsRegistry.java:39-55 | the answer and the new data source map are those of Resolve, a null url or user name matching any stored value; the socket map and the flag are unchanged |
| ConnectionsRegistry.Registry.ResolveSocketAddressStatus | sniffy-core/src/main/java/io/sniffy/registry/ConnectionsRegistry.java:57-78 | the answer and the new socket map are those of Resolve, a stored null host or port matching anything and a stored host matching the host name or the host address; the key registered is the address's host name and port |
| ConnectionsRegistry.Registry.SetSocketAddressStatus | sniffy-core/src/main/java/io/sniffy/registry/ConnectionsRegistry.java:84-93 | exactly one key of the socket map is upserted; everything else is unchanged |
| ConnectionsRegistry.Registry.SetDataSourceStatus | sniffy-core/src/main/java/io/sniffy/registry/ConnectionsRegistry.java:99-108 | exactly one key of the data source map is upserted; everything else is unchanged |
| ConnectionsRegistry.Registry.SetPersistRegistry | sniffy-core/src/main/java/io/sniffy/registry/ConnectionsRegistry.java:114-116 | sets the flag and nothing else |
| ConnectionsRegistry.Registry.Clear | sniffy-core/src/main/java/io/sniffy/registry/ConnectionsRegistry.java:118-122 | empties both maps and clears persistRegistry |
| ConnectionsRegistry.Registry.WriteTo | sniffy-core/src/main/java/io/sniffy/registry/ConnectionsRegistry.java:152-241 | the text written is WriteRegistry's for the registry's state with the entry rendering as written |
| ConnectionsRegistry.Registry.WriteToFixed | sniffy-core/src/main/java/io/sniffy/registry/ConnectionsRegistry.java:172-188 | the same text with the corrected entry rendering |
| ConnectionsRegistry.WildcardSocketBlocksAll | sniffy-core/src/main/java/io/sniffy/registry/ConnectionsRegistry.java:66-69 | a CLOSED entry with neither host nor port blocks every socket address |
| ConnectionsRegistry.HostAddressMatches | sniffy-core/src/main/java/io/sniffy/registry/ConnectionsRegistry.java:66 | a CLOSED entry stored under the textual host address blocks the address |
| ConnectionsRegistry.EditDataSourceRegistry | sniffy-core/src/test/java/io/sniffy/servlet/SnifferServletTest.java:99-130 | posting a data source registers one OPEN entry, deleting it switches the same single entry to CLOSED, and resolving by url alone then answers CLOSED |
| ConnectionsRegistry.RegistryJsonSections | sniffy-core/src/main/java/io/sniffy/registry/ConnectionsRegistry.java:154-239 | the sockets section, when present, opens right after the persistent flag, the data sources section right after the sockets section, and the text ends with "}" |
| ConnectionsRegistry.RegistryWithOneOfEach | sniffy-core/src/main/java/io/sniffy/registry/ConnectionsRegistry.java:152-241 | one socket and one data source registered OPEN give a section each holding that one entry |
| ErrorChain.ChainOf | src/main/java/com/github/bedrin/jdbc/sniffer/Spy.java:746-763 | no chain exactly when nothing failed; otherwise the reported error is the first failure |
| ErrorChain.Throwables | sniffy-core/src/main/java/io/sniffy/Spy.java:254-272 | walking getCause from the reported error yields at least that error, first |
| ErrorChain.ChainKeepsOrder | src/main/java/com/github/bedrin/jdbc/sniffer/Spy.java:751-761 | the cause chain holds exactly the failures in the order the loop met them |
| ErrorChain.CauseAtIsFailure | sniffy-core/src/main/java/io/sniffy/Spy.java:258-269 | the i-th failure is reached from the reported error by exactly i getCause steps |
| ErrorChain.FailuresOfMeaning | sniffy-core/src/main/java/io/sniffy/Spy.java:258-269 | no failure exactly when every expectation passes; otherwise the reported error is that of the first expectation that fails |
| LegacySpy.OthersStepwise | src/main/java/com/github/bedrin/jdbc/sniffer/Spy.java:96-97 | the OTHERS count computed left to right with wrap-around at every step equals the wrapped exact difference |
| LegacySpy.CurrentPlusOthersIsAny | src/main/java/com/github/bedrin/jdbc/sniffer/Spy.java:90-98 | in int arithmetic the CURRENT count plus the OTHERS count is the ANY count, overflow included |
| LegacySpy.CountsAreDifferences | src/main/java/com/github/bedrin/jdbc/sniffer/Spy.java:88-102 | without overflow each count is the exact difference of the counters against the baselines, and CURRENT plus OTHERS is ANY |
| LegacySpy.Validate | src/main/java/com/github/bedrin/jdbc/sniffer/Spy.java:886-894 | no error exactly when the observed count lies within the bounds; the error carries the matcher, the bounds, the count and the recorded SQL |
| LegacySpy.FailuresMeaning | src/main/java/com/github/bedrin/jdbc/sniffer/Spy.java:746-763 | no error exactly when every expectation validates; otherwise the first error is that of the first expectation that fails |
| LegacySpy.AliasMeaning | src/main/java/com/github/bedrin/jdbc/sniffer/Spy.java:112-725 | what each alias family accepts: never 0, atMostOnce 0..1, atMost(n) 0..n, expect(n) exactly n, atLeast(n) n or more, between(a, b) a..b |
| LegacySpy.VerifyOutcome | src/main/java/com/github/bedrin/jdbc/sniffer/Spy.java:733-739 | verify passes exactly when nothing failed, and otherwise throws a chain that holds every failure in order |
| LegacySpy.Suppressed | src/main/java/com/github/bedrin/jdbc/sniffer/Spy.java:854-864 | the callback's error carries one suppressed error exactly when verify fails and none otherwise |
| LegacySpy.Spy.constructor | src/main/java/com/github/bedrin/jdbc/sniffer/Spy.java:41-50 | the baselines are the counters at creation; nothing recorded, expected or closed |
| LegacySpy.Spy.AddExecutedSql | src/main/java/com/github/bedrin/jdbc/sniffer/Spy.java:33-35 | appends the statement to the recorded SQL and changes nothing else |
| LegacySpy.Spy.Reset | src/main/java/com/github/bedrin/jdbc/sniffer/Spy.java:59-64 | refused once closed; otherwise re-baselines and forgets the recorded SQL, expectations kept |
| LegacySpy.Spy.ExecutedStatements | src/main/java/com/github/bedrin/jdbc/sniffer/Spy.java:88-102 | refused once closed; otherwise the count for the matcher and statement type against the baselines |
| LegacySpy.Spy.Expect | src/main/java/com/github/bedrin/jdbc/sniffer/Spy.java:141-146 | refused once closed; otherwise appends exactly the given expectation and changes nothing else |
| LegacySpy.Spy.ExpectNever | src/main/java/com/github/bedrin/jdbc/sniffer/Spy.java:141-146 | appends an expectation of 0..0 statements |
| LegacySpy.Spy.ExpectAtMostOnce | src/main/java/com/github/bedrin/jdbc/sniffer/Spy.java:241-246 | appends an expectation of 0..1 statements |
| LegacySpy.Spy.ExpectAtMost | src/main/java/com/github/bedrin/jdbc/sniffer/Spy.java:341-346 | appends an expectation of 0..n statements |
| LegacySpy.Spy.ExpectExactly | src/main/java/com/github/bedrin/jdbc/sniffer/Spy.java:441-446 | appends an expectation of exactly n statements |
| LegacySpy.Spy.ExpectAtLeast | src/main/java/com/github/bedrin/jdbc/sniffer/Spy.java:541-546 | appends an expectation of n..Integer.MAX_VALUE statements |
| LegacySpy.Spy.ExpectBetween | src/main/java/com/github/bedrin/jdbc/sniffer/Spy.java:647-652 | appends an expectation of min..max statements |
| LegacySpy.Spy.VerifyNow | src/main/java/com/github/bedrin/jdbc/sniffer/Spy.java:190-194 | refused once closed; otherwise passes exactly when the one expectation validates, and throws its error as a chain of one when it does not |
| LegacySpy.Spy.GetWrongNumberOfQueriesError | src/main/java/com/github/bedrin/jdbc/sniffer/Spy.java:746-763 | refused once closed; otherwise the chain of the failures of all expectations in list order, or none |
| LegacySpy.Spy.Verify | src/main/java/com/github/bedrin/jdbc/sniffer/Spy.java:733-739 | refused once closed; otherwise passes exactly when every expectation validates, else throws the chain |
| LegacySpy.Spy.Close | src/main/java/com/github/bedrin/jdbc/sniffer/Spy.java:782-793 | refused once closed; otherwise always ends closed, records the stack without its first frame, and returns verify's outcome; an empty stack makes the copy fail instead |
| LegacySpy.Spy.Execute | src/main/java/com/github/bedrin/jdbc/sniffer/Spy.java:806-817 | the statements the callback executes are added to the recorded SQL, which verify's errors then list; a failing callback is rethrown with verify's error as suppressed; otherwise verify's outcome after the callback |
| LegacySpy.Spy.Call | src/main/java/com/github/bedrin/jdbc/sniffer/Spy.java:840-852 | as execute, including the callback's statements in the recorded SQL, and the callback's value is returned exactly when every expectation validates |
| LegacySpy.CallbackStatementsReported | src/main/java/com/github/bedrin/jdbc/sniffer/Spy.java:886-892 | after expectNever, a callback that executes one statement makes verify throw an error counting 1 and listing that statement |
| LegacySpy.ClosedSpyRefusesEverything | src/main/java/com/github/bedrin/jdbc/sniffer/Spy.java:795-799 | after close, close, executedStatements, expect, verify and reset all throw SpyClosedException carrying the stack recorded at close |
| WrongNumberOfRows.RowsText | src/main/java/io/sniffy/WrongNumberOfRowsError.java:84-90 | "affected" exactly for INSERT, UPDATE and MERGE; "returned / affected" for SELECT, the other kinds and no kind |
| WrongNumberOfRows.AppendLines | src/main/java/io/sniffy/WrongNumberOfRowsError.java:93-99 | the loop appends one "sql; /* n rows */" line per entry the filter lists, in iteration order, and nothing for the others |
| WrongNumberOfRows.BuildDetailMessage | src/main/java/io/sniffy/WrongNumberOfRowsError.java:72-101 | the StringBuilder ends holding the detail message: the header, then the lines of the listed entries (none for a null map) |
| WrongNumberOfRows.Create | src/main/java/io/sniffy/WrongNumberOfRowsError.java:23-34 | a null map fails (after the message is built); otherwise every getter returns its constructor argument and the message is the detail message |
| WrongNumberOfRows.GetExecutedSqls | src/main/java/io/sniffy/WrongNumberOfRowsError.java:64-70 | the sql of every key, one per entry, in iteration order |
| WrongNumberOfRows.ExecutedStatements | src/main/java/io/sniffy/WrongNumberOfRowsError.java:60-62 | the keys of the map, one per entry, in iteration order |
| WrongNumberOfRows.MessageStartsWithRange | src/main/java/io/sniffy/WrongNumberOfRowsError.java:77-83 | the message opens with "Expected between a and b", then the thread wording, then " rows " and the row wording |
| WrongNumberOfRows.ThreadsWording | src/main/java/io/sniffy/WrongNumberOfRowsError.java:78-82 | " current thread" exactly for CURRENT, " other threads" exactly for OTHERS, nothing exactly for ANY |
| WrongNumberOfRows.MessageEndsWithObservedLines | src/main/java/io/sniffy/WrongNumberOfRowsError.java:92-99 | the message ends with "Observed n rows instead:" followed by exactly the lines of the listed entries |
| WrongNumberOfRows.NullMapNoLines | src/main/java/io/sniffy/WrongNumberOfRowsError.java:93 | with a null map the message is the header alone |
| WrongNumberOfRows.AnyListsAll | src/main/java/io/sniffy/WrongNumberOfRowsError.java:96 | with the ANY kind or no kind every entry is listed, in order |
| WrongNumberOfRows.KindListsMatching | src/main/java/io/sniffy/WrongNumberOfRowsError.java:96 | with a specific kind, an entry is listed exactly when its statement is of that kind |
| WrongNumberOfRows.ListedEntriesBound | src/main/java/io/sniffy/WrongNumberOfRowsError.java:93-99 | never more lines than entries |
| WrongNumberOfRows.InsertFilterScenario | src/main/java/io/sniffy/WrongNumberOfRowsError.java:93-99 | a SELECT then an INSERT under the INSERT filter: only the INSERT's line is written |
| BufferedStream.ByteOf | src/main/java/io/sniffy/servlet/BufferedServletOutputStream.java:90-94 | the byte written agrees with the int argument modulo 256 (its low eight bits) |
| BufferedStream.FlushEvents | src/main/java/io/sniffy/servlet/BufferedServletOutputStream.java:28-41 | one flush sends the commit notice only when the stream was not yet flushed, then writes to the target what the buffer holds after the listener has had it (the listener's rewrite when notified, the buffer as it is otherwise), flushes the target and marks the response committed; it never closes the target |
| BufferedStream.CloseNotices | src/main/java/io/sniffy/servlet/BufferedServletOutputStream.java:47-52 | a first close sends the commit notice only when not yet flushed, with the buffer's contents, then the close notice with what the commit listener left in the buffer |
| BufferedStream.BufferedServletOutputStream.constructor | src/main/java/io/sniffy/servlet/BufferedServletOutputStream.java:11-25 | an empty buffer, nothing sent, neither closed nor flushed, and the response wrapper's listener kept |
| BufferedStream.BufferedServletOutputStream.Flush | src/main/java/io/sniffy/servlet/BufferedServletOutputStream.java:28-41 | keeps the invariant (the commit notice sent exactly when flushed, at most once); on the first flush the listener rewrites the buffer before it is written, so the target gets the rewritten bytes; the buffer is emptied |
| BufferedStream.BufferedServletOutputStream.Close | src/main/java/io/sniffy/servlet/BufferedServletOutputStream.java:44-63 | a second close does nothing; a first close notifies, and the target gets the buffer as the commit listener (if notified) and then the close listener left it; it flushes and closes the target exactly once, and leaves the stream closed and empty |
| BufferedStream.BufferedServletOutputStream.Reset | src/main/java/io/sniffy/servlet/BufferedServletOutputStream.java:65-68 | refused with IllegalStateException once flushed; otherwise empties the buffer and sends nothing |
| BufferedStream.BufferedServletOutputStream.SetBufferSize | src/main/java/io/sniffy/servlet/BufferedServletOutputStream.java:70-73 | refused once flushed; otherwise the capacity grows to the requested size and never shrinks |
| BufferedStream.BufferedServletOutputStream.GetBufferSize | src/main/java/io/sniffy/servlet/BufferedServletOutputStream.java:75-77 | the buffer's capacity |
| BufferedStream.BufferedServletOutputStream.CheckOpen | src/main/java/io/sniffy/servlet/BufferedServletOutputStream.java:79-81 | IOException "Output Stream is closed" exactly when closed |
| BufferedStream.BufferedServletOutputStream.CheckNotFlushed | src/main/java/io/sniffy/servlet/BufferedServletOutputStream.java:83-85 | IllegalStateException "Output Stream was already sent to client" exactly when flushed |
| BufferedStream.BufferedServletOutputStream.FlushIfOverflow | src/main/java/io/sniffy/servlet/BufferedServletOutputStream.java:96-102 | a flush exactly when the size plus the new bytes, in int arithmetic, exceeds 200 * 1024; otherwise nothing changes |
| BufferedStream.BufferedServletOutputStream.Write | src/main/java/io/sniffy/servlet/BufferedServletOutputStream.java:89-94 | refused once closed; otherwise the overflow flush for one byte, then the byte appended |
| BufferedStream.BufferedServletOutputStream.WriteBytes | src/main/java/io/sniffy/servlet/BufferedServletOutputStream.java:104-109 | refused once closed; otherwise the overflow flush for the array's length, then the array appended |
| BufferedStream.BufferedServletOutputStream.WriteRange | src/main/java/io/sniffy/servlet/BufferedServletOutputStream.java:111-116 | refused once closed; the overflow flush for len happens even when off and len are out of bounds, which then fail; otherwise the slice is appended |
| BufferedStream.OverflowsMeaning | src/main/java/io/sniffy/servlet/BufferedServletOutputStream.java:98-99 | when the sum fits in an int the overflow test is the plain comparison with 200 * 1024 |
| BufferedStream.OverflowWraps | src/main/java/io/sniffy/servlet/BufferedServletOutputStream.java:99 | a one-byte buffer plus Integer.MAX_VALUE new bytes wraps negative and does not count as an overflow |
| BufferedStream.OpenWithTwoBytes | src/main/java/io/sniffy/servlet/BufferedServletOutputStream.java:89-94 | two single-byte writes to a new stream wait in the buffer; nothing is sent |
| BufferedStream.CloseTwice | src/main/java/io/sniffy/servlet/BufferedServletOutputStream.java:44-63 | closing twice, with a listener that leaves the buffer alone: one commit notice, one close notice, the bytes written and the target flushed, committed and closed once |
| BufferedStream.CloseWithInjection | src/main/java/io/sniffy/servlet/BufferedServletOutputStream.java:44-63 | a listener that adds a header before the commit and a footer before the close: the close notice sees the header and the target gets header, body and footer |
| BufferedStream.FlushThenCloseWithInjection | src/main/java/io/sniffy/servlet/BufferedServletOutputStream.java:28-63 | an earlier flush sends the header with the first bytes, and the close notice sees only the bytes written since, which go out with the footer |
| BufferedStream.ClosedStreamRefuses | src/main/java/io/sniffy/servlet/BufferedServletOutputStream.java:65-68 | after close, reset fails as flushed and write fails as closed |
| BufferedStream.OverflowScenario | src/main/java/io/sniffy/servlet/BufferedServletOutputStream.java:96-102 | 200 KiB written and then one byte: the full buffer is flushed with the commit notice and the new buffer holds the one byte |
| SnifferFilterHtml.FooterAtMostMaximum | src/main/java/io/sniffy/servlet/SnifferFilter.java:254-256 | no footer for a non-negative count is longer than the footer for Integer.MAX_VALUE, whose count takes ten characters |
| SnifferFilterHtml.FooterCarriesCount | src/main/java/io/sniffy/servlet/SnifferFilter.java:277-280 | the footer opens with the data element's fixed text and carries the decimal count right after it |
| SnifferFilterHtml.GenerateAndPadFooterHtml | src/main/java/io/sniffy/servlet/SnifferFilter.java:258-264 | the footer followed by spaces only, up to the maximum footer size (never shorter than the footer); for a non-negative count exactly the maximum size |
| SnifferFilterHtml.HeaderCarriesIdAndSource | src/main/java/io/sniffy/servlet/SnifferFilter.java:233-242 | the header script carries the request id in data-request-id and the context path followed by the script's URI in src |
| SnifferFilterHtml.HeaderLengthIgnoresId | src/main/java/io/sniffy/servlet/SnifferFilter.java:246-252 | the header's length depends on the request id only through its length, so any two random UUIDs give the same size |
| SnifferFilterHtml.SnifferFilter.constructor | src/main/java/io/sniffy/servlet/SnifferFilter.java:244 | the cached inject size starts at zero |
| SnifferFilterHtml.SnifferFilter.MaximumInjectSize | src/main/java/io/sniffy/servlet/SnifferFilter.java:246-252 | while the cache holds zero, the maximum footer size plus the header's length in int arithmetic, cached; afterwards the cached value |
| SnifferFilterHtml.InjectSizeCached | src/main/java/io/sniffy/servlet/SnifferFilter.java:246-252 | a second call with another context path returns the size the first call computed |
| QueryCounter.SearchMeaning | src/main/java/com/github/bedrin/jdbc/sniffer/junit/QueryCounter.java:38-44 | the method's annotations when it carries any; otherwise those of the first class up the hierarchy that carries any, with none before it; none at all when no class carries any |
| QueryCounter.ExpectationList | src/main/java/com/github/bedrin/jdbc/sniffer/junit/QueryCounter.java:56-64 | the single @Expectation, when present, first, followed by the @Expectations values in order, and nothing else |
| QueryCounter.DecideMeaning | src/main/java/com/github/bedrin/jdbc/sniffer/junit/QueryCounter.java:46-83 | the original statement exactly when there are no annotations; @NoQueriesAllowed beside either other annotation is invalid; a sniffer never gets a conflicting expectation; @NoQueriesAllowed alone gives its single expectation |
| QueryCounter.ConflictInvalidates | src/main/java/com/github/bedrin/jdbc/sniffer/junit/QueryCounter.java:66-74 | an expectation with a value and a bound anywhere in the list makes the annotations invalid |
| QueryCounter.SearchHierarchy | src/main/java/com/github/bedrin/jdbc/sniffer/junit/QueryCounter.java:38-44 | the loop up the hierarchy ends holding the annotations the search finds |
| QueryCounter.AnyConflicting | src/main/java/com/github/bedrin/jdbc/sniffer/junit/QueryCounter.java:66-74 | a conflict is reported exactly when some expectation in the list has a value and a bound |
| QueryCounter.Apply | src/main/java/com/github/bedrin/jdbc/sniffer/junit/QueryCounter.java:31-85 | the statement returned is the decision table's verdict on the annotations the search finds |
| QueryCounter.EvaluateInvalid | src/main/java/com/github/bedrin/jdbc/sniffer/junit/QueryCounter.java:97-104 | the configured exception is thrown whatever the delegate did |
| QueryCounter.MethodAnnotationWins | src/main/java/com/github/bedrin/jdbc/sniffer/junit/QueryCounter.java:33-44 | an @Expectation on the method wins over @NoQueriesAllowed on a superclass |
| QueryCounter.InheritedNoQueries | src/main/java/com/github/bedrin/jdbc/sniffer/junit/QueryCounter.java:78-80 | with nothing on the method or the class, the superclass's @NoQueriesAllowed gives the single no-queries expectation |
| Grouping.Position | sniffy-core/src/main/java/io/sniffy/Spy.java:49 | the index of the first entry with the given identity, and -1 exactly when there is none (LinkedHashMap.get) |
| Grouping.GroupByKeys | sniffy-core/src/main/java/io/sniffy/Spy.java:39-56 | the grouped map has an entry for exactly the identities that occur among the input keys, each once |
| Grouping.GroupByFirstKey | sniffy-core/src/main/java/io/sniffy/Spy.java:49-51 | every grouped entry keeps the key of the first input entry with its identity (put happens only when get finds nothing) |
| Grouping.GroupByOrder | sniffy-core/src/main/java/io/sniffy/Spy.java:39-56 | grouped entries come in the order their identities first occur in the input (LinkedHashMap insertion order) |
| Grouping.GroupByMerged | sniffy-core/src/main/java/io/sniffy/Spy.java:49-54 | each grouped value is the accumulation, in input order, of the values of every input entry with that identity |
| Grouping.GroupBySmall | sniffy-core/src/main/java/io/sniffy/Spy.java:49-54 | one entry groups to itself; two entries with different identities stay two entries in order, and two with the same identity become one entry under the first key with the values accumulated |
| Grouping.GroupByKeepsElements | sniffy-core/src/main/java/io/sniffy/Spy.java:171-177 | when the values are lists joined by addAll, grouping keeps every element of every input list, no more and no less |
| Traffic.Insert | sniffy-core/src/main/java/io/sniffy/Spy.java:184 | inserting a packet adds exactly that packet to the list |
| Traffic.InsertSorted | sniffy-core/src/main/java/io/sniffy/Spy.java:184 | inserting into a list sorted by timestamp keeps it sorted |
| Traffic.SortByTimestamp | sniffy-core/src/main/java/io/sniffy/Spy.java:184 | Collections.sort by compareTo: sorted by timestamp and a permutation of the input |
| Traffic.InsertStable | sniffy-core/src/main/java/io/sniffy/Spy.java:184 | an inserted packet goes ahead of every packet with its timestamp |
| Traffic.SortStable | sniffy-core/src/main/java/io/sniffy/Spy.java:184 | the sort is stable, as Collections.sort is: packets with equal timestamps keep their input order |
| Traffic.SortKeepsSorted | sniffy-core/src/main/java/io/sniffy/Spy.java:184 | a list already sorted by timestamp is left as it is |
| Traffic.Strip | sniffy-core/src/main/java/io/sniffy/Spy.java:190-193 | without grouping by stack trace, a packet is copied without its stack trace; direction, time and bytes are kept |
| Traffic.RunLength | sniffy-core/src/main/java/io/sniffy/Spy.java:189-198 | the packets that join the run of a head are exactly the leading ones combine accepts against that head |
| Traffic.ReduceIsFold | sniffy-core/src/main/java/io/sniffy/Spy.java:189-198 | the reduction, turn by turn, is the left fold of the loop's step over the sorted list |
| Traffic.ReduceIsRuns | sniffy-core/src/main/java/io/sniffy/Spy.java:186-198 | the loop's result is the list of run heads, each carrying the bytes of every packet of its run: since lastNetworkPacket is not advanced on a combine, a packet joins a run by its direction and its delay from the run's head |
| Traffic.ReduceKeepsBytes | sniffy-core/src/main/java/io/sniffy/Spy.java:184-198 | the reduced packets' bytes, concatenated, are the sorted packets' bytes: nothing is lost, duplicated or reordered |
| Traffic.StripKeepsBytes | sniffy-core/src/main/java/io/sniffy/Spy.java:190-193 | dropping stack traces keeps every packet's bytes |
| Traffic.ReduceKeepsOrder | sniffy-core/src/main/java/io/sniffy/Spy.java:184-198 | the reduced packets are still sorted by timestamp |
| Traffic.ReduceRunsHead | sniffy-core/src/main/java/io/sniffy/Spy.java:194-196 | something is reported exactly when some packet was, and the first reported packet has the first packet's direction and time |
| Traffic.ReducedIsSeparated | sniffy-core/src/main/java/io/sniffy/Spy.java:194-196 | no reported packet would be combined into the one before it |
| Traffic.SeparatedIsReduced | sniffy-core/src/main/java/io/sniffy/Spy.java:194-196 | a list in which no packet joins the one before it is reported unchanged |
| Traffic.ReduceIdempotent | sniffy-core/src/main/java/io/sniffy/Spy.java:186-198 | reducing a reduced list changes nothing |
| Traffic.ReportMeaning | sniffy-core/src/main/java/io/sniffy/Spy.java:184-198 | for sorted packets what one entry reports is sorted, keeps all bytes in order, is separated and is a fixed point of the reduction |
| SniffySpy.SelectStatementsMeaning | sniffy-core/src/main/java/io/sniffy/Spy.java:40-48 | the records kept are exactly those of threads the matcher accepts, rekeyed without stack trace when asked, in order |
| SniffySpy.StatementViewEntry | sniffy-core/src/main/java/io/sniffy/Spy.java:37-59 | every entry of getExecutedStatements is the key of a kept record, of a matching thread, without stack trace when stripped, and holds the field-wise sum of the stats of every record filed under it, in order |
| SniffySpy.StatementViewComplete | sniffy-core/src/main/java/io/sniffy/Spy.java:37-59 | one entry per key, and an entry for every record of a matching thread |
| SniffySpy.SocketViewStep | sniffy-core/src/main/java/io/sniffy/Spy.java:103-116 | each turn of the loop puts a record that passes both tests, or accumulates it into the entry equal to its key (same connection, thread, IP address, port and stack-trace reference), and skips any other |
| SniffySpy.SelectSocketsMeaning | sniffy-core/src/main/java/io/sniffy/Spy.java:104-108 | the records kept are exactly those passing the thread test and the address test (a null matcher accepts all), rekeyed |
| SniffySpy.SocketViewEntry | sniffy-core/src/main/java/io/sniffy/Spy.java:100-120 | every entry of getSocketOperations comes from a record that passed both tests, keeps its address, connection and thread, has no stack trace when removed, and holds the sum of the stats of every record whose key equals it, host names aside |
| SniffySpy.SocketViewComplete | sniffy-core/src/main/java/io/sniffy/Spy.java:100-120 | one entry per equal key (host names not compared), and an entry for every record that passes both tests |
| SniffySpy.HostNamesShareEntry | sniffy-core/src/main/java/io/sniffy/Spy.java:103-116 | two connections of one thread to the same IP address and port, whatever their host names, are one entry holding the sum of their stats |
| SniffySpy.SelectSocketsPair | sniffy-core/src/main/java/io/sniffy/Spy.java:103-116 | of two records, each that passes both tests is kept, in order |
| SniffySpy.PerThreadSplit | sniffy-core/src/test/java/io/sniffy/socket/SnifferSocketImplFactoryTest.java:111-129 | one connection in the calling thread and one in another: CURRENT and OTHERS each see one entry with that connection's stats, ANY sees two |
| SniffySpy.TrafficKeyOf | sniffy-core/src/main/java/io/sniffy/Spy.java:160-169 | the key keeps address and protocol; connection id becomes -1, and stack trace or thread become null, for each part not grouped by; grouped by everything, the key is unchanged |
| SniffySpy.MatcherOrAny | sniffy-core/src/main/java/io/sniffy/Spy.java:158 | the matcher applied is the given one when present |
| SniffySpy.FilePackets | sniffy-core/src/main/java/io/sniffy/Spy.java:171-177 | get, a new list put when there is none, then addAll: the map after the turn is the upsert with list concatenation |
| SniffySpy.TrafficGroupsStep | sniffy-core/src/main/java/io/sniffy/Spy.java:156-179 | each turn of the first loop files a connection that passes both tests under its rekeyed key and skips any other |
| SniffySpy.SelectTrafficMeaning | sniffy-core/src/main/java/io/sniffy/Spy.java:157-169 | the connections kept are exactly those passing the thread and the address test, under their rekeyed keys |
| SniffySpy.SelectTrafficPackets | sniffy-core/src/main/java/io/sniffy/Spy.java:156-179 | the kept connections hold only stored packets, none twice |
| SniffySpy.TrafficGroupEntry | sniffy-core/src/main/java/io/sniffy/Spy.java:155-179 | every grouped list is filed under the rekeyed key of a connection that passed both tests, and is the concatenation of the packets of every kept connection whose rekeyed key equals it, host names aside |
| SniffySpy.HostNamesShareTrafficGroup | sniffy-core/src/main/java/io/sniffy/Spy.java:156-179 | grouped neither by connection nor by stack trace, two connections of one thread to the same IP address and port, looked up under different host names, share one list, first connection first |
| SniffySpy.TrafficGroupsDistinct | sniffy-core/src/main/java/io/sniffy/Spy.java:171-177 | grouping neither duplicates nor invents a stored packet |
| SniffySpy.ReduceStep | sniffy-core/src/main/java/io/sniffy/Spy.java:194-197 | one turn: the packet is combined into the run head, or it is added and becomes the head; the head values follow the reduction step |
| SniffySpy.ReduceTurn | sniffy-core/src/main/java/io/sniffy/Spy.java:189-197 | one turn over the sorted list, stack trace dropped when not grouped by it: the reported values are the reduction of the prefix |
| SniffySpy.ReducePackets | sniffy-core/src/main/java/io/sniffy/Spy.java:186-198 | the reported packets' values are the reduction of the sorted values; the heads are stored packets or fresh copies, and every stored packet that is no head keeps its bytes |
| SniffySpy.ReducePacketsCopying | sniffy-core/src/main/java/io/sniffy/Spy.java:186-198 | with the fix the values are the same reduction and every reported packet is new |
| SniffySpy.SortKeepsElements | sniffy-core/src/main/java/io/sniffy/Spy.java:184 | sorting keeps a list's packets, so distinct stay distinct |
| SniffySpy.ReduceEntry | sniffy-core/src/main/java/io/sniffy/Spy.java:182-200 | one entry of the second loop: its list sorted and reduced, as in the reduction |
| SniffySpy.ReduceNext | sniffy-core/src/main/java/io/sniffy/Spy.java:181-200 | one entry more is reported as the reduction of its sorted values, and no earlier entry's reported values change |
| SniffySpy.ReduceGroups | sniffy-core/src/main/java/io/sniffy/Spy.java:181-202 | every entry keeps its key and gets the reduction of its sorted list, read before any packet was merged into |
| SniffySpy.ReduceGroupsCopying | sniffy-core/src/main/java/io/sniffy/Spy.java:181-202 | with the fix the same reduction, every reported packet new |
| SniffySpy.VerifyOutcome | sniffy-core/src/main/java/io/sniffy/Spy.java:241-248 | verify passes exactly when nothing failed, and otherwise throws a chain holding every failure in order |
| SniffySpy.Suppressed | sniffy-core/src/main/java/io/sniffy/Spy.java:368-378 | the callback's error carries verify's error as suppressed exactly when verify fails |
| SniffySpy.SpyClosedMessageShape | sniffy-core/src/main/java/io/sniffy/Spy.java:392-399 | SpyClosedException's message opens with "Spy is closed", a line separator and "Close stack trace:", and is that alone for an empty stack |
| SniffySpy.Spy.constructor | sniffy-core/src/main/java/io/sniffy/Spy.java:61-68 | nothing recorded, nothing expected, open |
| SniffySpy.Spy.GetExecutedStatements | sniffy-core/src/main/java/io/sniffy/Spy.java:37-59 | the loop builds exactly the statement view of the stored records |
| SniffySpy.Spy.GetSocketOperations | sniffy-core/src/main/java/io/sniffy/Spy.java:100-120 | the loop builds exactly the socket view of the stored records |
| SniffySpy.Spy.GroupTraffic | sniffy-core/src/main/java/io/sniffy/Spy.java:153-179 | a null address matcher throws NullPointerException exactly when some connection's thread matches; otherwise the grouped map of the kept connections |
| SniffySpy.Spy.GetNetworkTraffic | sniffy-core/src/main/java/io/sniffy/Spy.java:153-206 | the grouped keys, each with the reduction of its sorted packets; reported packets are stored ones or new copies, and a stored packet not reported keeps its bytes |
| SniffySpy.Spy.GetNetworkTrafficCopying | sniffy-core/src/main/java/io/sniffy/Spy.java:153-206 | with the fix the same report, with every packet new and every stored packet unchanged |
| SniffySpy.Spy.Expect | sniffy-core/src/main/java/io/sniffy/Spy.java:216-221 | refused once closed; otherwise appends the expectation and changes nothing else |
| SniffySpy.Spy.VerifyNow | sniffy-core/src/main/java/io/sniffy/Spy.java:228-233 | refused once closed; otherwise passes exactly when the expectation finds nothing, and throws its error when it does |
| SniffySpy.Spy.GetSniffyAssertionError | sniffy-core/src/main/java/io/sniffy/Spy.java:254-272 | refused once closed; otherwise the chain of the failures of all expectations in list order, or none |
| SniffySpy.Spy.Verify | sniffy-core/src/main/java/io/sniffy/Spy.java:241-248 | refused once closed; otherwise passes exactly when the chain is empty, and else throws it |
| SniffySpy.Spy.Close | sniffy-core/src/main/java/io/sniffy/Spy.java:292-302 | with no checkOpened it always ends closed and records the stack without its first frame; a second close throws SpyClosedException from verify; an empty stack makes the copy fail |
| SniffySpy.Spy.Reset | sniffy-core/src/main/java/io/sniffy/Spy.java:76-81 | refused once closed; otherwise forgets every record and every expectation, unlike the legacy Spy |
| SniffySpy.Spy.Execute | sniffy-core/src/main/java/io/sniffy/Spy.java:317-346 | a failing callback is rethrown with verify's error as suppressed; otherwise verify's outcome |
| SniffySpy.Spy.Call | sniffy-core/src/main/java/io/sniffy/Spy.java:354-366 | as execute, and the callback's value is returned exactly when no expectation fails |
| SniffySpy.CloseTwice | sniffy-core/src/main/java/io/sniffy/Spy.java:292-309 | the second close throws with the first close's stack; afterwards expect, verify and reset throw with the second close's stack |
| SniffySpy.SingleConnectionGroups | sniffy-core/src/main/java/io/sniffy/Spy.java:156-179 | grouped by everything, a single stored connection is its own group |
| SniffySpy.TwoPacketsMerge | sniffy-core/src/main/java/io/sniffy/socket/NetworkPacket.java:27-33 | two packets in one direction at one instant reduce to one holding both byte strings |
| SniffySpy.ReducePair | sniffy-core/src/main/java/io/sniffy/Spy.java:186-198 | the loop on two simultaneous packets reports one of them, holding both byte strings; the other keeps its bytes |
| SniffySpy.ReduceTwoPackets | sniffy-core/src/main/java/io/sniffy/Spy.java:181-202 | the second loop on one entry of two simultaneous packets reports a stored packet, merged into |
| SniffySpy.ReduceTwoPacketsCopying | sniffy-core/src/main/java/io/sniffy/Spy.java:181-202 | with the fix a new packet holding both byte strings |
| SniffySpy.RepeatedTrafficReport | sniffy-core/src/main/java/io/sniffy/Spy.java:194-196 | as written, a second report on the same capture holds three bytes where two were captured |
| SniffySpy.RepeatedTrafficReportCopying | sniffy-core/src/main/java/io/sniffy/Spy.java:194-196 | with the fix both reports hold the two captured bytes |
| SniffySpy.VerifyReportsFailures | sniffy-core/src/main/java/io/sniffy/Spy.java:254-272 | verify passes exactly when every expectation passes; otherwise the reported error is that of the first failing expectation |

## Left out

- Global counters and spy registration: `Sniffer.COUNTER`, the thread-local counter and `registerSpy`/`removeSpyReference` with their `WeakReference`s are static state outside the core. As a result, counters, baselines and recorded statements are parameters or fields of the `Spy`.
- Capturing stack traces: `Thread.currentThread().getStackTrace()` is not modelled. The frames, and the close site that `SpyClosedException` carries, are parameters.
- Reflection: `Class.forName` and `isAssignableFrom` in `StackTraceExtractor` become a resolution function parameter. The annotation lookups in `QueryCounter` become optional records.
- `ExceptionUtil.addSuppressed` and `throwException`: suppression is modelled as a primary error plus a list of suppressed errors. The reflective calls themselves, and their failure modes, are not modelled.
- Concurrency: `ConcurrentHashMap`, `synchronized` and thread-locals are modelled as single-threaded state.
- Hash-map iteration order: `HashMap` and `ConcurrentHashMap` iteration is left open, either as an arbitrary choice inside the loops or as an order the method reports. `LinkedHashMap` insertion order is modelled exactly.
- Registry persistence: `ConnectionsRegistryStorage` load and store are file I/O. `readFrom` relies on an external JSON parser that is not part of this model.
- Delay statuses: the fault injection with signed delays and sleeping belongs to another version of the registry and to `SnifferSocketImpl`, which is not part of this model.
- Servlet and HTTP plumbing: `SnifferFilter.doFilter` (cookies, parameters, session handling and HTML injection), `SnifferServlet`, the agent's HTTP server and the Spring and Kotlin integrations are not modelled.
- `SnifferFilter`'s `JAVASCRIPT_URI` is built from version constants that are not part of this model. It is a field of the filter.
- The random request UUID used by `maximumInjectSize` is a parameter.
- `BufferedServletOutputStream`'s `Buffer` class is not part of this model. As a result, the buffer is the sequence of bytes written, and its capacity changes only through `setBufferSize`.
- `BufferedServletOutputStream`: the calls on the wrapped response and the target are recorded as a log of events. The listener behind `notifyBeforeCommit` and `notifyBeforeClose` is the stream's `listener`, a pair of functions that rewrite the buffer's contents. Each is called at most once per stream, so state a real listener carries from one notice to the other (SnifferFilter's `isHtmlPage`) is folded into the pair. What a listener does elsewhere (setting the content length, caching the statements) and a listener that writes to the stream itself are not modelled.
- `BufferedStream.BufferedServletOutputStream.FlushIfOverflow`: the sum `buffer.size() + newBytes` is computed in 32-bit arithmetic, as in the source (lemma `OverflowWraps`). No limit is placed on `newBytes`.
- `SnifferFilterHtml.SnifferFilter.MaximumInjectSize`: the size is computed with 32-bit wrap-around, as in the source. `InjectSizeCached` requires a header of at most 1000 characters, so that its sum states the plain value.
- `QueryCounter`: the default of -1 for the `atMost`/`atLeast`/`value` members of `@Expectation` is assumed. `Expectation.java` is not part of this model.
- `QueryCounter`: `SnifferStatement.evaluate` calls `Sniffer.expect`, which is not part of this model. Only the decision about which statement to build is modelled, along with `InvalidAnnotationsStatement.evaluate`.
- `SniffySpy`: the `LegacySpy` superclass of the sniffy-core `Spy` is not part of this model. Its `reset` is taken to clear the recorded statements, socket operations and traffic kept by the `Spy`.
- `SocketMeta`: the hash codes of the address, of a string's identity and of the thread metadata are environment values. So is the string pool behind `String.intern`.
- `LegacySpy.Spy.Execute`, `LegacySpy.Spy.Call`, `SniffySpy.Spy.Execute` and `SniffySpy.Spy.Call`: the callback is a value, so what it does to its own `Spy` (close, reset, expect) is not modelled. The legacy pair does take the statements the callback executes, which the sniffer records through `addExecutedSql`. In particular, a callback that closes the `Spy` makes `verify` throw `SpyClosedException`. `verifyAndAddToException` does not catch that exception, so it escapes in place of the callback's error, or of the result; the contracts do not cover this case.
- `NetworkPackets.NetworkPacket.constructor` requires a range inside the array, because a Dafny constructor cannot throw. `NetworkPackets.NewNetworkPacket` models the whole constructor call, including the `IndexOutOfBoundsException`.
- `SocketMeta.SameAddress` covers resolved addresses only, for which `InetSocketAddress.equals` compares the IP address and the port. An unresolved address, compared by host name, is not modelled.
- `LegacySpy.Spy.Close`, `SniffySpy.Spy.Close`: Java's `closeStackTrace` starts as null, and stays null when close's stack copy fails. The model starts it as the empty stack, so a `SpyClosedException` over a null stack (whose message the legacy `generateMessage` would fail to build) is modelled as one over no frames.
- `SpyWithValue` holds a callback's value next to the `Spy`. The model's `Call` returns the value alone, in a `Result`.
- `CompatVersion`: `initialize` below Java 8 installs a selector provider by reflection. Only its gate on the version is modelled.
- `JavaText.ToLower` covers ASCII letters only. Java's Unicode case mapping is not modelled.
- `JavaText.ParseInt` accepts ASCII digits only, where `Integer.parseInt` accepts any Unicode decimal digit that `Character.digit` knows.
- Elapsed times, byte and row counts are given integers, not measured. `accumulate` adds the stat records field by field.

## Findings

| source | as written | input that shows it | evidently intended | confidence | as-written member | corrected member |
|---|---|---|---|---|---|---|
| sniffy-core/src/main/java/io/sniffy/Spy.java:194-196 | `getNetworkTraffic` merges a later packet into the head of its run with `combine`, and the head is a stored packet, not a copy | two packets of one byte each, sent on one connection at the same timestamp, reported twice: the second report holds three bytes | each report reduces copies, so the captured traffic is unchanged and every report is the same | not executed | SniffySpy.RepeatedTrafficReport | SniffySpy.RepeatedTrafficReportCopying |
| sniffy-core/src/main/java/io/sniffy/registry/ConnectionsRegistry.java:172-188 | the comma before `"status"` is written whatever was written before it (the same happens for data sources at lines 212-228) | a socket entry whose host and port are both null renders as `{,"status":"CLOSED"}`, which is not JSON | the comma is written only after a member | not executed | ConnectionsRegistry.EntryJsonWithoutFields | ConnectionsRegistry.EntryJsonFixedOpensWithMember |
| src/main/java/io/sniffy/trace/StackTraceExtractor.java:44-50 | after the loop only the last character is cut, not the whole line separator | one frame with the separator "\r\n" prints as the frame's text followed by "\r" | the frames joined by the separator, with no trailing separator | not executed | StackTraceExtractor.PrintedKeepsCarriageReturn | StackTraceExtractor.PrintedJoinedCorrect |
