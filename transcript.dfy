/**
 * The text of a ticket transcript as `create_transcript` builds it before
 * upload: a header block, a separator, then one line per message of the
 * channel's history, oldest first.
 */
module Transcript {
  import opened Wrappers
  import opened Text

  /**
   * One message of the channel history: its creation time already formatted
   * as `%Y-%m-%d %H:%M:%S`, the author's display name, the message's
   * mention-cleaned content and its attachments' file names.
   */
  datatype Message = Message(createdAt: string, author: string, cleanContent: string, attachments: seq<string>)

  /**
   * The header facts: the ticket row's id, owner and type and its creation
   * time, the owner's member name if the guild still has that member, the
   * closing time and the closer's name, all as already printed strings.
   */
  datatype Header = Header(
    ticketId: string,
    owner: int,
    ownerMember: Option<string>,
    ticketType: string,
    createdAt: string,
    closedAt: string,
    closedBy: string)

  const Title: string := "=== TICKET TRANSCRIPT ==="
  const MessagesSeparator: string := "\n=== MESSAGES ===\n"
  const HeaderLength: nat := 8

  /** The member's name, or else the bare user id. */
  function CreatorText(h: Header): string {
    match h.ownerMember
    case Some(name) => name
    case None => IntToString(h.owner)
  }

  /** The seven header lines followed by the separator entry. */
  function HeaderLines(h: Header): (lines: seq<string>)
    ensures |lines| == HeaderLength
    ensures lines[0] == Title && lines[HeaderLength - 1] == MessagesSeparator
    ensures lines[1] == "Ticket ID: " + h.ticketId
    ensures lines[2] == "Created by: " + CreatorText(h)
    ensures lines[3] == "Type: " + h.ticketType
    ensures lines[4] == "Created at: " + h.createdAt
    ensures lines[5] == "Closed at: " + h.closedAt
    ensures lines[6] == "Closed by: " + h.closedBy
  {
    [ Title,
      "Ticket ID: " + h.ticketId,
      "Created by: " + CreatorText(h),
      "Type: " + h.ticketType,
      "Created at: " + h.createdAt,
      "Closed at: " + h.closedAt,
      "Closed by: " + h.closedBy,
      MessagesSeparator ]
  }

  function MessagePrefix(m: Message): string {
    "[" + m.createdAt + "] " + m.author + ": "
  }

  function AttachmentSuffix(names: seq<string>): string {
    if names == [] then "" else " [Attachments: " + Join(names, ", ") + "]"
  }

  /**
   * `[ts] author: content` with newlines of the content turned into spaces;
   * the attachment list is appended exactly when there are attachments.
   */
  function FormatMessage(m: Message): (line: string)
    ensures m.attachments == [] <==> line == MessagePrefix(m) + ReplaceNewlines(m.cleanContent)
    ensures m.attachments != [] ==>
      line == MessagePrefix(m) + ReplaceNewlines(m.cleanContent) + " [Attachments: " + Join(m.attachments, ", ") + "]"
    ensures |line| >= |MessagePrefix(m)| && line[..|MessagePrefix(m)|] == MessagePrefix(m)
  {
    var line := MessagePrefix(m) + ReplaceNewlines(m.cleanContent) + AttachmentSuffix(m.attachments);
    assert m.attachments != [] ==> |line| > |MessagePrefix(m) + ReplaceNewlines(m.cleanContent)|;
    line
  }

  /**
   * A message line is a single line of text whenever its timestamp, author
   * and file names are: newlines of the content are replaced.
   */
  lemma FormatMessageIsOneLine(m: Message)
    requires '\n' !in m.createdAt && '\n' !in m.author
    requires forall i :: 0 <= i < |m.attachments| ==> '\n' !in m.attachments[i]
    ensures '\n' !in FormatMessage(m)
  {
    JoinAvoids(m.attachments, ", ", '\n');
    var prefix := MessagePrefix(m);
    var body := ReplaceNewlines(m.cleanContent);
    var suffix := AttachmentSuffix(m.attachments);
    assert '\n' !in prefix;
    assert '\n' !in suffix;
    assert FormatMessage(m) == prefix + body + suffix;
  }

  /** The body of `create_transcript`: append the header, then one line per message. */
  method BuildTranscript(h: Header, history: seq<Message>) returns (lines: seq<string>)
    ensures |lines| == HeaderLength + |history|
    ensures lines[..HeaderLength] == HeaderLines(h)
    ensures forall i :: 0 <= i < |history| ==> lines[HeaderLength + i] == FormatMessage(history[i])
  {
    lines := HeaderLines(h);
    var k := 0;
    while k < |history|
      invariant 0 <= k <= |history|
      invariant |lines| == HeaderLength + k
      invariant lines[..HeaderLength] == HeaderLines(h)
      invariant forall i :: 0 <= i < k ==> lines[HeaderLength + i] == FormatMessage(history[i])
    {
      lines := lines + [FormatMessage(history[k])];
      k := k + 1;
    }
  }
}
