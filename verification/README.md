# AstryxOS host tooling: a verified model

AstryxOS boots in a virtual machine and is observed from the host: a capture of its network traffic, and the serial
log its kernel writes. The scripts under `scripts/` turn those two byte streams into reports. This project models the
part of them that decides what the reports say, and proves what the reports mean.

- **The wire decoder** (`scripts/pcap_decode.py`). `Capture` reads and writes libpcap files, `Frames` dissects and
  builds Ethernet, VLAN, IPv4, IPv6, TCP and UDP, `Dns` decodes compressed names and messages, `Tls` and `Hellos` walk
  TLS records and hello messages, `Http` reads cleartext first lines, `Tracker` is the per-connection state machine,
  `Decoder` reads a file through all of them, and `Wire` gives the whole answer. What the tracker's state says about the
  traffic is proved in `Flows`, `Reordering`, `Acks`, `Lifecycle`, `Conservation` and `Summary`; `Pipeline` joins
  writer, cut, reader, dissector and tracker in one statement.
- **The boot-marker scanners** (`scripts/perf_markers.py`, `scripts/serial-web.py`, `scripts/perf-bench.py`). `Ladder`
  models three forward-only scanners over one abstract ladder of markers, `Phases` the durations read off them.
- **The syscall comparison** (`scripts/differential-soak.py`, `scripts/syscall-diff.py`). `Pairing` matches entry and
  return lines, `Splitter` cuts argument lists, `Divergence` finds the first disagreement of two streams, `Soak` does
  both on a log; `Syscalls` is the record they share.
- **The serial dashboards** (`scripts/serial-web.py`). `Screenshot` reassembles a picture from base64 chunks, `BlockMap`
  is the histogram of block requests.

Code that works by changing things is imperative here too: the capture reader, a connection and the tracker are
classes whose fields the methods update; the histogram is filled in place in arrays; the loops of the parsers and
scanners are loops. Each such method is proved equal to a function of its input or of the stream fed so far, and the
theorems are about that function. `TcpTracker` carries the stream fed to it as a ghost field, and its invariant says
that the table of connection objects is exactly the state this stream leads to.

Bytes are integers below 256, sequence numbers and lengths are unbounded integers with the 16- and 32-bit fields
checked where they are written, and capture times are exact reals. Calls to the file system, the clock and the regular
expression engine are parameters: a log is a sequence of lines already recognised.

## What is proved

- For every list of TCP segments and UDP datagrams: written to a capture file, cut at any byte, decoded. The tracker is
  in exactly the state that the wholly captured segments lead to, the events are the DNS messages among the wholly
  captured datagrams, the tallies are theirs, and the capture is reported as unfinished exactly when the cut is not on
  a record boundary (`Pipeline.LiveCapture`).
- For every stream of segments and every connection in it: the connection's state depends on its own segments alone
  (`Flows.Projection`); each counter, flag, inferred state and anomaly equals a statement about those segments
  (`Reordering.ReorderReport`, `Acks.DupAckReport`, `Lifecycle.StateMeaning`, `Lifecycle.TlsReport`,
  `Summary.AnomalyReport`); bytes and segments are conserved (`Conservation.Conserved`); states never regress
  (`Lifecycle.StateNeverRegresses`).
- Parsers undo builders, with padding, VLAN stacks, extension-header chains, compression pointers and extension lists
  of any length, and say exactly where their limits are (129 decoding steps, 16 extension headers, 128 answers).
- Prefixes are safe: a capture file, or a TLS segment, cut anywhere shows a prefix of what the whole would show.
- The three scanners are sound, and greedy matching is optimal: a required marker is reached if and only if the log
  contains an admissible chain of lines up to it (`Ladder.GreedyIsOptimal`). For the milestone ladder this comes to what
  its documentation promises: optional entries make no difference (`Ladder.MilestonesNeverStall`).
- Pairing, and the verdict on a process, are independent of how threads and processes interleave; splitting inverts
  joining; the reported divergence is the end of the longest agreeing prefix; a reassembled picture is the original up
  to the first missing chunk; and the histogram is a per-sector count exactly when the grid divides the device.

## Where code and documentation differ

The model follows the code. Each of these is a lemma below.

- `scripts/perf_markers.py:255-262` says that a missing optional anchor never stalls the ones behind it. Two
  neighbouring ones do: with no TCP and no screenshot line the PNG is written and never recorded
  (`Ladder.MissingOptionalsStall`); `Ladder.NeighboursBlock` and `Ladder.GreedyIsOptimal` say exactly when.
- `scripts/perf_markers.py:309-318` says that the render phases never count an interval twice. RENDER-SETUP and RENDER
  never overlap each other, but the free-standing render marker can make them overlap other phases: before the
  screenshot it starts RENDER inside NETWORK/TLS or FF-STARTUP, after the opening of the PNG it ends RENDER-SETUP inside
  ENCODE (`Phases.RunsInto`), and the phases can exceed the whole run (`Phases.StrayMarkerInflates`). Timed phases keep
  apart if and only if the marker is in place or there is no timed phase for it to run into (`Phases.PhasesInOrder`).
  They fit the run if and only if the marker is settled, which is in place and not before the run, or what it overruns
  is made up for by the time the log goes on after its deepest anchor (`Phases.PhasesFit`); keeping apart is not enough
  for that (`Phases.EarlyMarkerInflates`).
- `scripts/pcap_decode.py:818` calls a duplicate ACK the third identical one. Two equal empty ACKs already count one
  (`Acks.SecondAckCounts`). The count is never below the comment's, and equals it if and only if no run of two or more
  begins with an empty segment (`Acks.ThirdAckReport`).
- Sequence numbers are compared as plain integers. Data in order across the 32-bit wrap is reported as reordered
  (`Reordering.WrapIsMisread`), and a segment from before the wrap that arrives late is missed
  (`Reordering.ReorderingIsMissed`). The report is right about the wrapping order if and only if data that looks in order
  one way or the other keeps to one half of the sequence space (`Reordering.CleanIsInOrderIff`).
- The IPv6 parser takes a zero payload length to mean "all the rest", so Ethernet padding behind an empty packet becomes
  its payload (`Frames.Ipv6ShortChain` states when padding is cut off, both ways).
- The name decoder reads label lengths up to 191 where section 2.3.4 of RFC 1035 stops at 63, and gives up after 129
  steps. A spelled name, compressed or not, is decoded if and only if its last label is read within them
  (`Dns.DecodedIff`).
- The query builder writes the number of characters of a label and then its UTF-8 bytes, so the name "é" comes back as
  one of its two bytes (`Dns.AccentIsCut`). A built query or response comes back if and only if every label is ASCII and
  of 1 to 191 characters, and there are at most 128 of them (`Dns.QueryRoundTrip`, `Dns.ResponseRoundTrip`).
- The HTTP parser is described as reading first lines only. It also reads the host of a request, and searches all lines
  for it, those of the body included (`Http.RequestRoundTrip`, `Http.HostOf`).
- The writer accepts frames of any size, the reader stops at the first one longer than 262144 bytes
  (`Capture.RoundTrip`, an if-and-only-if; `Capture.ReadPrefix` for any cut).

## Model

| member | source | states |
|---|---|---|
| Capture.OpenReader | scripts/pcap_decode.py:135-158 | opening any file gives a reader that holds its header and stands at its first record, or the first thing wrong with the header |
| Capture.PcapReader.Read | scripts/pcap_decode.py:163-175 | a read returns the next bytes, fewer at the end of the file, and leaves exactly the rest unread |
| Capture.PcapReader.Next | scripts/pcap_decode.py:160-179 | one turn of the iterator yields the first of the remaining records and leaves the others, or stops and raises the truncated flag exactly for a torn or oversize record |
| Capture.HeaderFields | scripts/pcap_decode.py:1276-1277 | whatever follows it, the written global header parses to little-endian, microseconds, version 2.4, snap length 65535 and the link type given |
| Capture.CutHeader | scripts/pcap_decode.py:139-155 | a written file cut inside its global header is refused: too short before the fourth byte, truncated after it |
| Capture.WholeFramesIsLargest | scripts/pcap_decode.py:160-179 | the number of whole frames in a cut body is the largest one whose bytes fit the cut |
| Capture.ReadPrefix | scripts/pcap_decode.py:160-179 | reading any byte prefix of any written capture gives exactly the frames it holds whole before the first oversize one, in order, and is flagged as truncated if and only if the cut is not right behind them |
| Capture.RoundTrip | scripts/pcap_decode.py:1273-1281 | a written file reads back as every frame before the first oversize one; it is the identity if and only if no frame exceeds 262144 bytes |
| Capture.ReadMonotone | scripts/pcap_decode.py:128-132 | for arbitrary bytes after the header, what is read from a shorter file is a prefix of what is read from the longer one |
| Frames.StripLink | scripts/pcap_decode.py:185-245 | the link layer, VLAN loop included, gives the specified protocol and payload for all five link types |
| Frames.LinkTagged | scripts/pcap_decode.py:188-206 | any stack of VLAN tags of either kind is peeled down to the ethertype and its payload |
| Frames.Ipv4RoundTrip | scripts/pcap_decode.py:248-264 | a built IPv4 packet parses to its fields, and whatever is padded behind it is cut off |
| Frames.TcpRoundTrip | scripts/pcap_decode.py:295-314 | a built segment parses to its ports, numbers, window, payload and all six flag bits |
| Frames.UdpRoundTrip | scripts/pcap_decode.py:317-324 | a built datagram parses to itself, whatever follows it |
| Frames.UntaggedIsBuilt | scripts/pcap_decode.py:1212-1223 | the frame the builder writes is the untagged, unpadded case of the tagged frames of the next two rows |
| Frames.TcpFrameRoundTrip | scripts/pcap_decode.py:1230-1239 | dissecting a built TCP frame under any VLAN tags and any padding recovers addresses and every segment field |
| Frames.UdpFrameRoundTrip | scripts/pcap_decode.py:1226-1227 | the same for UDP frames |
| Frames.ParseIpv6 | scripts/pcap_decode.py:267-292 | the extension-header loop computes the specified packet, sixteen headers at most |
| Frames.WalkChain | scripts/pcap_decode.py:276-289 | over a chain of extension headers held anywhere in a packet, the walk ends behind the first sixteen, and has met a fragment header exactly if one of those is one |
| Frames.Ipv6RoundTrip | scripts/pcap_decode.py:267-292 | for any chain of extension headers, addresses, upper protocol, payload and fragment flag come out; beyond sixteen headers, the seventeenth and its bytes do |
| Frames.Ipv6ShortChain | scripts/pcap_decode.py:290 | with at most sixteen headers the payload is the one sent if and only if there is no padding or the payload length is not zero |
| Dns.DecodeName | scripts/pcap_decode.py:337-368 | the name loop ends on every buffer, pointer cycles included, resumes inside it, and computes the specified labels and resumption point |
| Dns.DecodedIff | scripts/pcap_decode.py:342-368 | a name spelled in the buffer by labels and pointers, in any number of steps, is what the decoder returns if and only if its last label is read within 129 steps |
| Dns.DecodedIsPrefix | scripts/pcap_decode.py:337-368 | and otherwise what it returns is a leading part of the name |
| Dns.LabelsReadable | scripts/pcap_decode.py:343-365 | whatever the bytes, the decoder returns at most 129 labels, each of 1 to 191 bytes |
| Dns.SpellingUnique | scripts/pcap_decode.py:337-368 | a buffer position spells at most one name, in one number of steps, so a pointer cycle spells none |
| Dns.PlainName | scripts/pcap_decode.py:341-368 | up to 128 literal labels decode to themselves and decoding resumes past the terminator |
| Dns.LongName | scripts/pcap_decode.py:342-346 | of 129 or more labels exactly 129 are returned, and decoding resumes right behind them |
| Dns.CompressedName | scripts/pcap_decode.py:353-361 | labels followed by a pointer to a spelled suffix, itself compressed or not, decode to labels and suffix if and only if the last label is read within 129 steps, and decoding resumes past the pointer if it is reached |
| Dns.ParseDns | scripts/pcap_decode.py:371-416 | the message walk computes the specified header fields, questions and answers |
| Dns.ParseQuestions | scripts/pcap_decode.py:383-390 | the question loop computes the specified questions and where they end, stopping at the first incomplete one |
| Dns.ParseAnswers | scripts/pcap_decode.py:391-413 | the answer loop computes the specified answers, stopping at the first incomplete one |
| Dns.ParseAnswer | scripts/pcap_decode.py:394-413 | one answer: its name, type, address or name data, and where the next one starts or reading stopped |
| Dns.QueryRoundTrip | scripts/pcap_decode.py:1242-1248 | for every name the builder can write, the query parses to that one question if and only if every label is ASCII and of 1 to 191 characters and there are at most 128 |
| Dns.AsciiIff | scripts/pcap_decode.py:1245-1246 | a label has as many UTF-8 bytes as characters if and only if it is ASCII |
| Dns.AccentIsCut | scripts/pcap_decode.py:1245-1246 | the name "é" is written with a length of one and two bytes, and comes back as the first of them |
| Dns.ResponseRoundTrip | scripts/pcap_decode.py:1293-1300 | a response with any number of address records whose names are pointers to the question parses to the question and the first 128 addresses under its name, if and only if every label is ASCII and of 1 to 191 characters and there are at most 128 |
| Tls.ReadAlpn | scripts/pcap_decode.py:500-509 | the ALPN loop computes the specified protocol list |
| Tls.ReadVersions | scripts/pcap_decode.py:517-522 | the supported-versions loop computes the specified version list |
| Tls.NoteExtension | scripts/pcap_decode.py:494-524 | what one extension changes: server name, protocol list or version list, each only if it says something |
| Tls.ParseHelloExtensions | scripts/pcap_decode.py:480-524 | the extension walk computes the specified result for any bytes, clamped to the block and to the data |
| Tls.ParseTlsRecords | scripts/pcap_decode.py:432-461 | the record loop computes the specified entries for any payload |
| Tls.PrefixSafety | scripts/pcap_decode.py:432-461 | for arbitrary bytes, a segment cut short shows the same entries as the whole one, of which only the last may be torn |
| Tls.StreamPrefix | scripts/pcap_decode.py:432-461 | a prefix of concatenated valid records gives one right entry per record begun, all but the last whole, the last marked as spanning if and only if the cut is inside it |
| Hellos.BlockRead | scripts/pcap_decode.py:485-524 | a block of any extensions, in any order and number, is read as exactly what they say, later ones overriding earlier ones |
| Hellos.ClientRoundTrip | scripts/pcap_decode.py:527-549 | any well-formed ClientHello body parses to its legacy version and what its extensions say |
| Hellos.ServerRoundTrip | scripts/pcap_decode.py:552-572 | any well-formed ServerHello body parses to its legacy version, cipher and what its extensions say |
| Hellos.ClientHelloRoundTrip | scripts/pcap_decode.py:1251-1270 | for every server name that fits, the built record parses to one whole ClientHello with that name and both protocols |
| Http.FindHost | scripts/pcap_decode.py:597-601 | the host loop finds what the first line that begins with "host:" names |
| Http.Parse | scripts/pcap_decode.py:582-606 | the parser computes the specified request or response for any payload |
| Http.RequestRoundTrip | scripts/pcap_decode.py:593-605 | a request with any verb of the list, path, version, header lines and body is read as that verb and path and the host of the lines behind the first |
| Http.HostOf | scripts/pcap_decode.py:597-601 | the first host line decides, and what is behind it does not matter |
| Http.ResponseRoundTrip | scripts/pcap_decode.py:586-592 | a response with any version, status, reason and rest is read as that status and reason |
| Tracker.KeyIsPair | scripts/pcap_decode.py:661-664 | two endpoint pairs share a key if and only if they are the same pair, in either order |
| Tracker.Conn.constructor | scripts/pcap_decode.py:623-658 | a new connection has its two endpoints, its time and nothing else |
| Tracker.Conn.Opening | scripts/pcap_decode.py:740-754 | SYN, SYN-ACK and established flags, the re-tagging of the opener, and the direction of the segment |
| Tracker.Conn.Closing | scripts/pcap_decode.py:755-772 | FIN and RST flags, zero windows, and whether this is a first RST before the handshake is complete |
| Tracker.Conn.Handshake | scripts/pcap_decode.py:740-772 | the flag half of a segment is the specified step, in the specified direction |
| Tracker.Conn.Account | scripts/pcap_decode.py:774-802 | bytes, segments, retransmits and reordering are updated in the segment's own direction only |
| Tracker.Conn.DupAck | scripts/pcap_decode.py:808-830 | the duplicate-ACK bookkeeping is updated in the segment's own direction only |
| Tracker.Conn.L7 | scripts/pcap_decode.py:832-876 | the records of a TLS-looking payload are noted one after the other; where none is found, an HTTP message is added to its list; nothing else changes |
| Tracker.Conn.Receive | scripts/pcap_decode.py:728-806 | a segment takes the connection through the whole step and reports a premature reset under the endpoints as they then are |
| Tracker.TcpTracker.constructor | scripts/pcap_decode.py:668-669 | a new tracker has seen nothing |
| Tracker.TcpTracker.Lookup | scripts/pcap_decode.py:728-739 | the connection of a segment is the known one or a fresh object entered last |
| Tracker.TcpTracker.Tcp | scripts/pcap_decode.py:728-806 | after a segment the table is the state of the longer stream, distinct connections stay distinct objects, no other connection is touched, and a premature reset is reported |
| Flows.Projection | scripts/pcap_decode.py:728-739 | in any interleaving, each connection's state is the one its own segments lead to, and exactly the connections with a segment are in the table |
| Flows.OpenerTracked | scripts/pcap_decode.py:744-750 | over any run the stored pair is the connection's own and `a` is the sender of the latest pure SYN, or of the first segment if there is none |
| Flows.Directions | scripts/pcap_decode.py:774-802 | a connection's counters are those of its two directions tracked separately |
| Flows.VolumeReport | scripts/pcap_decode.py:774-793 | bytes and segments of each direction are those its segments carry, every segment counts in one direction, and the times are those of the first and last segment |
| Reordering.SideMeaning | scripts/pcap_decode.py:780-788 | the cached set and maximum are those of the data sequence numbers; retransmits are data segments minus distinct numbers; reordered segments are the first-time numbers that arrive after a larger one |
| Reordering.CleanSide | scripts/pcap_decode.py:780-788 | both counters stay zero if and only if the data arrives in strictly increasing order |
| Reordering.ReorderReport | scripts/pcap_decode.py:774-802 | all of this for any connection of any stream, both directions together |
| Reordering.WrapIsMisread | scripts/pcap_decode.py:785-786 | data in order across the wrap of section 3.3 of RFC 793 is counted as reordered |
| Reordering.ReorderingIsMissed | scripts/pcap_decode.py:785-788 | data from before the wrap that arrives late is not counted as reordered |
| Reordering.OrdersCompared | scripts/pcap_decode.py:785-788 | for any 32-bit numbers, a list in order one way is in order the other way if and only if it keeps to one half of the sequence space |
| Reordering.CleanIsInOrderIff | scripts/pcap_decode.py:774-802 | for any connection of any stream, exactly when "no retransmission and no reordering" means data in wrapping order in both directions |
| Acks.CounterOverAcks | scripts/pcap_decode.py:808-830 | the bookkeeping depends on the ACK-bearing segments alone |
| Acks.DupsAreRepeats | scripts/pcap_decode.py:808-830 | for every cut of the ACKs into maximal runs, the counter is the sum over runs of the empty segments but the first |
| Acks.RunsExist | scripts/pcap_decode.py:808-830 | such a cut exists for every sequence of ACKs |
| Acks.DupAckReport | scripts/pcap_decode.py:808-830 | the closed form for any connection of any stream |
| Acks.ThirdsCompared | scripts/pcap_decode.py:816-822 | the counter is never below the number of third and later identical ACKs, and equals it if and only if no run of two or more begins with an empty segment |
| Acks.ThirdAckReport | scripts/pcap_decode.py:816-822 | the same for any connection of any stream |
| Acks.SecondAckCounts | scripts/pcap_decode.py:818-819 | two equal empty ACKs count one, though there is no third |
| Lifecycle.FlagMeaning | scripts/pcap_decode.py:743-768 | every flag of a connection says exactly what its segments show, including which side's FIN it was after re-tagging |
| Lifecycle.OneResetEach | scripts/pcap_decode.py:760-768 | each connection has one premature-reset entry if its first RST precedes its handshake, and none otherwise |
| Lifecycle.StateNeverRegresses | scripts/pcap_decode.py:950-965 | over any longer stream the inferred state of a connection never moves back |
| Lifecycle.StateMeaning | scripts/pcap_decode.py:950-965 | the reported state, straight from what happened on the wire |
| Lifecycle.TlsOverRecords | scripts/pcap_decode.py:832-863 | the TLS state of a connection is that of its record entries in order of arrival |
| Lifecycle.NotesMeaning | scripts/pcap_decode.py:845-862 | the hello flags say whether such a record was seen; the handshake is complete if and only if application data follows a ServerHello |
| Lifecycle.LastSpeakerStands | scripts/pcap_decode.py:846-858 | the last non-empty server name, protocol list and version list stand, and the last ServerHello decides the version |
| Lifecycle.SilenceStands | scripts/pcap_decode.py:846-858 | what no hello ever said stays unset |
| Lifecycle.FirstLegacyStands | scripts/pcap_decode.py:851-853 | without any version list the first ClientHello's legacy version stands |
| Lifecycle.TlsReport | scripts/pcap_decode.py:832-863 | the hello and completion flags for any connection of any stream |
| Lifecycle.HttpReport | scripts/pcap_decode.py:864-876 | the requests and responses of a connection are those its own segments carry where no TLS is found, in order |
| Conservation.Conserved | scripts/pcap_decode.py:728-806 | for every stream the table lists each connection once, and payload bytes and segments over all connections add up to those of the stream |
| Conservation.EntryIsItsPair | scripts/pcap_decode.py:661-664 | every entry is stored under the key of its own endpoints, in either order |
| Summary.Finalize | scripts/pcap_decode.py:879-948 | the anomaly list is that of the final state, connection by connection in table order, and the connection list, with every recorded field and the inferred state, is the table sorted by bytes |
| Summary.Sorted | scripts/pcap_decode.py:946-947 | the connection list is by falling bytes, has exactly the table's connections, and keeps table order among equals |
| Summary.SortedUnique | scripts/pcap_decode.py:946-947 | only one list does all that |
| Summary.Logged | scripts/pcap_decode.py:883-916 | an anomaly is logged for a connection if and only if its condition holds, with the connection's endpoints and count |
| Summary.ZeroWindowsCounted | scripts/pcap_decode.py:770-772 | the zero-window counter is the number of ACKs with window zero that are not resets |
| Summary.RetransmitsMeaning | scripts/pcap_decode.py:780-782 | a connection has a retransmission if and only if some data sequence number comes twice in one direction |
| Summary.AnomalyReport | scripts/pcap_decode.py:879-916 | when each of the seven anomalies is raised for a connection, in terms of that connection's own segments |
| Decoder.Open | scripts/pcap_decode.py:1032-1054 | link, network and transport layers of one record by way of the parsing loops |
| Decoder.NoteUdp | scripts/pcap_decode.py:706-726 | a DNS event, with resolver and client told apart by port, for a parsed message on port 53 and nothing else |
| Decoder.EachTallied | scripts/pcap_decode.py:1032-1054 | every processed record is counted in exactly one place, the tracker gets one segment per TCP packet, one event is kept per DNS message, and TLS and HTTP segments are different TCP segments |
| Decoder.NotesMeaning | scripts/pcap_decode.py:1046-1054 | what is noted of packets is the fragments and the tracker's premature resets, each in their order, and nothing else |
| Decoder.TimesMeaning | scripts/pcap_decode.py:678-682 | the capture's first and last time are the smallest and largest time of a record, and absent if and only if there is none |
| Decoder.Decode | scripts/pcap_decode.py:975-1080 | for any bytes and cap, a header error or the report over the records up to the cap (header fields, times, tallies, DNS events, packet notes, flags), and a tracker fed with exactly their TCP segments |
| Wire.DecodeFile | scripts/pcap_decode.py:975-1080 | the whole answer: report, connection list, and one list of remarks with the unfinished capture first, then packets and the cap in order, then connections |
| Wire.RemarkIff | scripts/pcap_decode.py:1024-1080 | a remark is made if and only if the capture is unfinished, the cap was met, the packet was noted, or some connection shows the anomaly |
| Wire.RowIff | scripts/pcap_decode.py:917-948 | exactly the connections of the table are listed, as many rows as there are connections |
| Pipeline.FrameDissected | scripts/pcap_decode.py:1212-1239 | a built TCP or UDP frame, written and read, is dissected to what it was built from |
| Pipeline.SentDecoded | scripts/pcap_decode.py:1032-1054 | any mix of built TCP and UDP frames decodes to its segments, its DNS messages and its tallies |
| Pipeline.QueryEvent | scripts/pcap_decode.py:706-726 | a built query sent to port 53 becomes an event with its question, resolver and client |
| Pipeline.ResponseEvent | scripts/pcap_decode.py:706-726 | a built response from port 53 becomes an event with its question and its first 128 addresses, resolver and client told apart by the destination port |
| Pipeline.LiveCapture | scripts/pcap_decode.py:975-1080 | segments and datagrams written to a capture, cut at any byte behind the header and decoded: the tracker's state, the DNS events, the tallies, the resets, the packet count, the cap and the truncated flag, for every cut and cap |
| Ladder.ScanPhaseBoundaries | scripts/perf_markers.py:347-448 | the phase scan is the specified scan with a lookahead of one, the deepest anchor is the one before the cursor, the two flags say whether any line shows a panic or the PNG magic, and the render record is the first line that shows its marker |
| Ladder.ScanProgress | scripts/serial-web.py:256-309 | the milestone scan is the specified scan that steps over an optional entry for any deeper one, with its timeline, deepest hit, first tick and panic flag |
| Ladder.FallbackTimeline | scripts/perf-bench.py:287-313 | the fallback timeline is that of the specified scan that steps over nothing, with the first tick |
| Ladder.Timeline | scripts/serial-web.py:296-306 | one row per entry, with its hit and the ticks since the last hit before it that has one; and the deepest hit |
| Ladder.DeltasAddUp | scripts/serial-web.py:299-301 | the differences on a timeline add up to its last tick minus its first |
| Ladder.DeltasRise | scripts/serial-web.py:299-301 | with ticks that never decrease, no difference is negative |
| Ladder.Advance | scripts/perf_markers.py:421-435 | the cursor stops at the first entry the line neither shows nor allows to be stepped over |
| Ladder.CursorOrder | scripts/serial-web.py:281-291 | on one ladder and any log, a laxer scanner is never behind a stricter one |
| Ladder.ScanSound | scripts/perf_markers.py:406-435 | every hit is on a line that shows it, hits follow ladder order, and of the entries passed only optional ones are missing, as the rule allows |
| Ladder.Complete | scripts/perf_markers.py:406-435 | whatever noise surrounds an admissible chain of lines, the cursor ends past its last entry |
| Ladder.GreedyIsOptimal | scripts/perf_markers.py:406-435 | a required entry is reached if and only if the log contains an admissible chain up to it, and then it is recorded |
| Ladder.NeighboursBlock | scripts/perf_markers.py:427-435 | with a lookahead of one, two neighbouring entries no line shows block the cursor, optional or not |
| Ladder.MissingOptionalsStall | scripts/perf_markers.py:255-263 | a log with every required anchor and no optional one on which the written PNG is never recorded, though the laxer rule reaches the end |
| Ladder.MilestonesNeverStall | scripts/serial-web.py:188-192 | a required milestone is recorded if and only if the required ones up to it come in order, whatever the optional ones do |
| Ladder.HitsStamped | scripts/perf_markers.py:394-424 | every recorded entry carries the latest tick at or before its line |
| Ladder.ShowStamped | scripts/perf_markers.py:404-405 | so does the free-standing render record, which is on a line showing a render marker |
| Ladder.HitTicks | scripts/perf_markers.py:394-424 | with ticks that never decrease, recorded ticks never decrease along the ladder, and behind a hit with a tick every hit has one |
| Phases.FirstTick | scripts/perf-bench.py:213-220 | the loop finds the smallest tick on any recorded anchor |
| Phases.MinTickLeast | scripts/perf-bench.py:215-220 | it is the tick of some recorded anchor and no recorded anchor has a smaller one; there is none if and only if no anchor has a tick |
| Phases.StrayMarker | scripts/perf_markers.py:466-469 | a render marker the ordered scan did not take stands before the screenshot anchor or after the PNG was opened |
| Phases.LogsArePlausible | scripts/perf_markers.py:421-435 | what every log with rising ticks guarantees of its anchors and its render record |
| Phases.RenderPairApart | scripts/perf_markers.py:477-485 | RENDER-SETUP and RENDER never overlap each other |
| Phases.RunsInto | scripts/perf_markers.py:466-486 | a render mark that is out of place and not harmless makes RENDER begin inside NETWORK/TLS or FF-STARTUP, or RENDER-SETUP end inside ENCODE |
| Phases.PhasesInOrder | scripts/perf_markers.py:488-505 | for any log with rising ticks and any starting anchor, timed phases come in taxonomy order without overlap if and only if the render mark is in place or harmless |
| Phases.StraySum | scripts/perf_markers.py:488-505 | with an unsettled render mark, the phases add up to the time from the first to the deepest anchor tick plus a stated overrun |
| Phases.PhasesFit | scripts/perf-bench.py:211-224 | for any log with rising ticks and any starting anchor, the phases together fit the run's total if and only if the render mark is settled or its overrun is at most the time the log goes on after its deepest anchor |
| Phases.RenderContainedIff | scripts/perf_markers.py:477-485 | the two render phases lie between screenshot and PNG if and only if the render mark is in place |
| Phases.NoMarkerNoRender | scripts/perf_markers.py:309-316 | with no render marker, RENDER-SETUP runs to the opening of the PNG and RENDER has no duration |
| Phases.StrayMarkerInflates | scripts/perf_markers.py:466-469 | a log with rising ticks whose phases overlap and together exceed the run |
| Phases.EarlyMarkerInflates | scripts/perf_markers.py:466-469 | a log with rising ticks and a harmless mark before the first anchor tick whose phases exceed the run |
| Pairing.SignExtendIsTwosComplement | scripts/differential-soak.py:440-442 | the signed return is the two's-complement reading of the 64-bit value |
| Pairing.ParseSerial | scripts/differential-soak.py:390-446 | for any pid filter and cap, one record per wanted entry line read, in log order and with that line's fields, paired with the next line of the same process, thread and call |
| Pairing.NextLineDecides | scripts/differential-soak.py:437-445 | a record's return is decided by the first later line for its call: a return's value, or nothing if it is another entry |
| Pairing.NoLineNoReturn | scripts/differential-soak.py:397-400 | an entry with no later line for its call has no return |
| Pairing.PairingCommutes | scripts/differential-soak.py:397-398 | pairing one thread's or one process's lines alone gives its records of the whole log |
| Pairing.InterleavingIndependent | scripts/differential-soak.py:397-398 | two logs with the same lines of a thread, or of a process, pair its calls alike |
| Pairing.NoCapReadsAll | scripts/differential-soak.py:434-435 | with a cap of zero the whole log is read |
| Pairing.KeepIsScope | scripts/differential-soak.py:412-413 | a pid filter keeps exactly the calls of that process, and no filter keeps all |
| Pairing.FilterCommutes | scripts/differential-soak.py:412-413 | without a cap, a pid filter is filtering the unfiltered result, and reading that process's lines alone |
| Splitter.SplitArgs | scripts/differential-soak.py:244-282 | the character loop computes the specified pieces for any text and cap |
| Splitter.SplitInvertsJoin | scripts/differential-soak.py:244-282 | well-formed arguments joined by commas come back: up to six as they are, beyond that six and the rest verbatim |
| Splitter.RawIsLossless | scripts/differential-soak.py:251-279 | for any text, the unstripped pieces with their commas are the text |
| Splitter.SplitIsRaw | scripts/differential-soak.py:270-282 | for any text with no more pieces than the cap, the result is those pieces stripped, without an empty last one |
| Splitter.SplitCapped | scripts/differential-soak.py:273-277 | for any text with more, that many pieces stripped, then all the rest as one |
| Divergence.DiffStreams | scripts/differential-soak.py:584-685 | the streams agree exactly up to the reported index, nothing is reported if and only if they agree throughout, the class says which way they differ, the two calls and those around them are shown, and the snapshot points are those the calls walked fire |
| Divergence.AroundHolds | scripts/differential-soak.py:688-696 | a call is in the window if and only if it is at most the context away, at its own place |
| Divergence.NoteSnapshots | scripts/differential-soak.py:611-623 | the points one call fires, in the order configured |
| Divergence.FiredIff | scripts/differential-soak.py:607-623 | a point is listed for an index if and only if it is configured and that call fires it |
| Divergence.AgreementUnique | scripts/differential-soak.py:603-637 | the longest agreeing prefix is unique, so the reported index is determined |
| Divergence.DiffByNumber | scripts/syscall-diff.py:378-431 | the same for the comparison by call number alone, with the two calls and those around them |
| Divergence.NeverLater | scripts/differential-soak.py:624-637 | comparing returns as well never reports later, and if earlier then because of a return |
| Soak.Compare | scripts/differential-soak.py:584-685 | comparing a log with a stream: the verdict is about exactly the calls the log delivers |
| Soak.VerdictIsOwn | scripts/differential-soak.py:397-398 | the verdict on one process depends on its own lines alone |
| Screenshot.DecodePrefix | scripts/serial-web.py:665-670 | any whole number of groups of a base64 text decodes to the bytes they stand for |
| Screenshot.CollectChunks | scripts/serial-web.py:570-612 | the collecting loop computes the specified chunk table, total, end flag and header |
| Screenshot.ContiguousB64 | scripts/serial-web.py:615-626 | the text is the leading run of chunks, and the gap is the first index missing |
| Screenshot.DecodeShot | scripts/serial-web.py:629-686 | the reported picture, dimensions, counts, gap, percentage, sizes, errors and completeness, for any log |
| Screenshot.Collected | scripts/serial-web.py:596-604 | if the log carries one stream among other lines, the table holds exactly the chunks that arrived, each with its own text |
| Screenshot.Reassembled | scripts/serial-web-smoke.py:310-330 | any report on a log that carries bytes sent in 76-character chunks, in any order and with any repetition, loss and noise: the picture is the original up to the first missing chunk, and complete if and only if the end and every chunk came and the original is a PNG, which it then is |
| BlockMap.ClampGrid | scripts/serial-web.py:453 | the grid is always between 16 and 2048 |
| BlockMap.Spread | scripts/serial-web.py:471-485 | one request changes each cell in place by the specified amount |
| BlockMap.ScanBlkmap | scripts/serial-web.py:447-495 | the two histograms are the specified totals, the request count is theirs, and the largest end is a maximum |
| BlockMap.AddedCounted | scripts/serial-web.py:471-485 | for every request, inside the device or not, a cell gets the number of requested sectors in its range or one less, and exactly that number if the grid divides the device |
| BlockMap.HistogramExact | scripts/serial-web.py:465-486 | on a dividing grid the whole histogram is the per-sector count, for every list of requests |
| BlockMap.Conserved | scripts/serial-web.py:471-485 | a request inside the device is never over-counted, loses at most one sector per cell it spans, and none on a dividing grid |
| BlockMap.HistogramConserved | scripts/serial-web.py:465-486 | for any list of requests inside the device, a whole histogram adds up to the sectors requested that way, less at most one per cell a request spans, and to exactly them on a dividing grid |
| BlockMap.ExactIffDivides | scripts/serial-web.py:464 | the histogram is exact for all requests if and only if the grid divides the device |

## Left out

- The rest of the repository: the kernel, drivers, user space and the other scripts.
- Addresses, MAC addresses and what is read off the wire as text: they stay bytes, so connection keys are ordered by bytes, not by their printed form; which pairs share a key is not affected. The builders' names are text.
- The per-packet exception path of the decoder: every parser here is total on every input, so there is nothing to catch.
- The text of anomaly details, rounding of times to microseconds, and the adapter for the dashboard.
- Recognition of log lines: which markers, ticks, entries, returns, chunks and requests a line contains is given, and so are the regular expressions, the file reading and the caching around it.
- The helpers that strip noise from a syscall stream before it is compared, and the selection of fields for display.
- The copy of the argument splitter in `scripts/syscall-diff.py`, which is the same loop as the one modelled.
- Rounding of floating-point numbers: times and phase durations are exact.
- Tracker.Conn.constructor: the per-direction fields of the source are grouped in one record per direction.
- Http.Parse: accepts a status of any length, where newer Python interpreters refuse to convert one of more than 4300 digits.
- BlockMap.ScanBlkmap: bucket bounds are exact fractions where the source uses floating point, and the tail of the log is already cut out and parsed.
