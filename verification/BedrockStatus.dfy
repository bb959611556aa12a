/** The status line a Bedrock server answers a ping with. */
module BedrockStatus {
  import opened GoStrings

  /** The status part of a config, field by field. */
  datatype ServerStatus = ServerStatus(
    edition: Str, text: Str, text2: Str,
    protocol: int, versionName: Str,
    online: int, max: int,
    gamemodeName: Str, gamemodeId: int,
    ipv4: int, ipv6: int)
  {
    /** All numbers fit the machine's integers. */
    predicate Fits() {
      && MIN_INT <= protocol <= MAX_INT && MIN_INT <= online <= MAX_INT && MIN_INT <= max <= MAX_INT
      && MIN_INT <= gamemodeId <= MAX_INT && MIN_INT <= ipv4 <= MAX_INT && MIN_INT <= ipv6 <= MAX_INT
    }

    predicate NoSemicolon() {
      && SEMICOLON !in edition && SEMICOLON !in text && SEMICOLON !in text2
      && SEMICOLON !in versionName && SEMICOLON !in gamemodeName
    }
  }

  datatype Parsed = Status(status: ServerStatus) | TooFewParts

  /** The twelve fields in the order of the format string. */
  function Fields(id: int, s: ServerStatus): (parts: seq<Str>)
    ensures |parts| == 12
  {
    [s.edition, s.text, FormatInt(s.protocol), s.versionName, FormatInt(s.online), FormatInt(s.max),
     FormatInt(id), s.text2, s.gamemodeName, FormatInt(s.gamemodeId), FormatInt(s.ipv4), FormatInt(s.ipv6)]
  }

  function StatusLine(id: int, s: ServerStatus): Str {
    Join(Fields(id, s), [SEMICOLON])
  }

  /** The server id, part 6, is not read back. Fewer than twelve parts are out of range. */
  function StringToBedrockStatus(line: Str): Parsed {
    var parts := Split(line, [SEMICOLON]);
    if |parts| < 12 then TooFewParts
    else
      Status(ServerStatus(
        parts[0], parts[1], parts[7], Atoi(parts[2]), parts[3], Atoi(parts[4]), Atoi(parts[5]),
        parts[8], Atoi(parts[9]), Atoi(parts[10]), Atoi(parts[11])))
  }

  lemma {:induction false} FieldsLackSemicolon(id: int, s: ServerStatus)
    requires s.NoSemicolon()
    ensures forall i :: 0 <= i < 12 ==> SEMICOLON !in Fields(id, s)[i]
  {
    forall n: int { FormatHasNo(n, SEMICOLON); }
  }

  /** The parts of a printed line, one by one; the seventh is the server's id, which is not read back. */
  lemma {:induction false} LineParts(id: int, s: ServerStatus)
    requires s.NoSemicolon()
    ensures var parts := Split(StatusLine(id, s), [SEMICOLON]);
      && |parts| == 12 && parts[0] == s.edition && parts[1] == s.text && parts[7] == s.text2
      && parts[2] == FormatInt(s.protocol) && parts[3] == s.versionName
      && parts[4] == FormatInt(s.online) && parts[5] == FormatInt(s.max) && parts[6] == FormatInt(id)
      && parts[8] == s.gamemodeName && parts[9] == FormatInt(s.gamemodeId)
      && parts[10] == FormatInt(s.ipv4) && parts[11] == FormatInt(s.ipv6)
  {
    FieldsLackSemicolon(id, s);
    SplitOfJoin(Fields(id, s), SEMICOLON);
  }

  /** A line of fewer than twelve parts is refused, any other accepted. */
  lemma {:induction false} AcceptedExact(line: Str)
    ensures StringToBedrockStatus(line).Status? <==> |Split(line, [SEMICOLON])| >= 12
  {
  }

  lemma {:induction false} ParsesBack(id: int, s: ServerStatus)
    requires s.Fits() && s.NoSemicolon()
    ensures StringToBedrockStatus(StatusLine(id, s)) == Status(s)
  {
    LineParts(id, s);
    AtoiOfFormat(s.protocol);
    AtoiOfFormat(s.online);
    AtoiOfFormat(s.max);
    AtoiOfFormat(s.gamemodeId);
    AtoiOfFormat(s.ipv4);
    AtoiOfFormat(s.ipv6);
  }

  /** Parsing a printed line gives the status back exactly when no text has a semicolon. */
  lemma {:induction false} RoundTripExact(id: int, s: ServerStatus)
    requires s.Fits()
    ensures StringToBedrockStatus(StatusLine(id, s)) == Status(s) <==> s.NoSemicolon()
  {
    if s.NoSemicolon() {
      ParsesBack(id, s);
    }
    PartsLackSeparator(StatusLine(id, s), SEMICOLON);
  }
}
