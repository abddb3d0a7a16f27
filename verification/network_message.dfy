/**
 * The word buffer exchanged with clients (sources/network_message.c). The
 * buffer is MaxLength words; word 0 holds the message length (in words,
 * header included), word 1 the message type, and the content starts at
 * word 2. MAX_LENGTH is a build constant, a parameter here.
 */
module NetworkMessage {
  import opened Wrappers

  datatype Message = Message(memory: seq<int>, maxLength: nat)

  /** The buffer has MaxLength words, room for the two header words. */
  predicate Valid(m: Message)
  {
    |m.memory| == m.maxLength && m.maxLength >= 2
  }

  function Length(m: Message): int
    requires Valid(m)
  {
    m.memory[0]
  }

  function Type(m: Message): int
    requires Valid(m)
  {
    m.memory[1]
  }

  /** init_network_message: every word zero, so the length word reads 0. */
  function InitNetworkMessage(maxLength: nat): (m: Message)
    requires maxLength >= 2
    ensures Valid(m) && m.maxLength == maxLength && Length(m) == 0
    ensures forall j :: 0 <= j < maxLength ==> m.memory[j] == 0
  {
    Message(seq(maxLength, _ => 0), maxLength)
  }

  /** build_message_head: length 2 (the header alone) and the given type; the content is untouched. */
  function BuildMessageHead(m: Message, messageType: int): (r: Message)
    requires Valid(m)
    ensures Valid(r) && r.maxLength == m.maxLength
    ensures Length(r) == 2 && Type(r) == messageType
    ensures r.memory[2..] == m.memory[2..]
  {
    m.(memory := [2, messageType] + m.memory[2..])
  }

  /**
   * insert_message_word: refused when the length word equals MaxLength;
   * otherwise the word is written at the position the length word names,
   * and then the length word is incremented. Only equality is tested, so a
   * length word beyond MaxLength would write past the buffer; callers keep
   * it in range.
   */
  function InsertMessageWord(m: Message, word: int): (r: (Outcome, Message))
    requires Valid(m) && 0 <= Length(m) <= m.maxLength
    ensures Valid(r.1) && r.1.maxLength == m.maxLength
    ensures r.0 == Failure <==> Length(m) == m.maxLength
    ensures r.0 == Failure ==> r.1 == m
    ensures r.0 == Success && Length(m) == 0 ==> Length(r.1) == word + 1 && r.1.memory[1..] == m.memory[1..]
    ensures r.0 == Success && Length(m) >= 1 ==>
      Length(r.1) == Length(m) + 1 && r.1.memory[Length(m)] == word
      && forall j :: 0 < j < m.maxLength && j != Length(m) ==> r.1.memory[j] == m.memory[j]
  {
    var at := Length(m);
    if at == m.maxLength then (Failure, m)
    else
      var written := m.memory[at := word];
      (Success, m.(memory := written[0 := written[0] + 1]))
  }

  /**
   * Before a head is built the length word is 0, so an insertion lands on
   * the length word itself: inserting 7 into a fresh buffer leaves the
   * length word at 8 and no content written.
   */
  lemma InsertBeforeHead()
    ensures var r := InsertMessageWord(InitNetworkMessage(4), 7);
      r.0 == Success && Length(r.1) == 8 && r.1.memory[1..] == [0, 0, 0]
  {
  }

  /**
   * extract_message_word: refused iff index is at or past MaxLength - 2;
   * otherwise the content word at index, whether or not it was inserted.
   */
  function ExtractMessageWord(m: Message, index: nat): (r: (Outcome, Option<int>))
    requires Valid(m)
    ensures r.0 == Failure <==> index >= m.maxLength - 2
    ensures r.0 == Failure ==> r.1.None?
    ensures r.0 == Success ==> r.1 == Some(m.memory[2 + index])
  {
    if index >= m.maxLength - 2 then (Failure, None)
    else (Success, Some(m.memory[2 + index]))
  }

  /**
   * A message of the given type whose content is words, with the rest of the
   * buffer still zero.
   */
  predicate Holds(m: Message, messageType: int, words: seq<int>)
  {
    Valid(m) && Length(m) == 2 + |words| <= m.maxLength && Type(m) == messageType
    && (forall i :: 0 <= i < |words| ==> m.memory[2 + i] == words[i])
    && (forall j :: 2 + |words| <= j < m.maxLength ==> m.memory[j] == 0)
  }

  /** Inserting each of words in turn; the flag says whether every insertion succeeded. */
  function InsertAll(m: Message, words: seq<int>): (r: (bool, Message))
    requires Valid(m) && 2 <= Length(m) <= m.maxLength
    ensures Valid(r.1) && r.1.maxLength == m.maxLength && 2 <= Length(r.1) <= m.maxLength
    decreases |words|
  {
    if words == [] then (true, m)
    else
      var (outcome, m') := InsertMessageWord(m, words[0]);
      var (rest, m'') := InsertAll(m', words[1..]);
      (outcome == Success && rest, m'')
  }

  lemma InsertStep(m: Message, messageType: int, words: seq<int>, word: int)
    requires Holds(m, messageType, words) && 2 + |words| < m.maxLength
    ensures InsertMessageWord(m, word).0 == Success
    ensures Holds(InsertMessageWord(m, word).1, messageType, words + [word])
  {
    var r := InsertMessageWord(m, word).1;
    forall i | 0 <= i < |words| + 1
      ensures r.memory[2 + i] == (words + [word])[i]
    {
    }
  }

  lemma {:induction false} InsertAllHolds(m: Message, messageType: int, words: seq<int>, more: seq<int>)
    requires Holds(m, messageType, words) && 2 + |words| + |more| <= m.maxLength
    ensures InsertAll(m, more).0 && Holds(InsertAll(m, more).1, messageType, words + more)
    decreases |more|
  {
    if more != [] {
      InsertStep(m, messageType, words, more[0]);
      var m' := InsertMessageWord(m, more[0]).1;
      InsertAllHolds(m', messageType, words + [more[0]], more[1..]);
      assert words + [more[0]] + more[1..] == words + more;
    }
  }

  /**
   * Round trip: after a head and the insertion of words that fit, extracting
   * index i gives the i-th word, then zeros up to the end of the buffer, and
   * fails from MaxLength - 2 on; one more insertion fails once the buffer is
   * full.
   */
  lemma RoundTrip(maxLength: nat, messageType: int, words: seq<int>, index: nat)
    requires maxLength >= 2 && 2 + |words| <= maxLength
    ensures var built := InsertAll(BuildMessageHead(InitNetworkMessage(maxLength), messageType), words);
      built.0
      && (index < |words| ==> ExtractMessageWord(built.1, index) == (Success, Some(words[index])))
      && (|words| <= index < maxLength - 2 ==> ExtractMessageWord(built.1, index) == (Success, Some(0)))
      && (index >= maxLength - 2 ==> ExtractMessageWord(built.1, index).0 == Failure)
      && (2 + |words| == maxLength ==> InsertMessageWord(built.1, 0).0 == Failure)
  {
    var head := BuildMessageHead(InitNetworkMessage(maxLength), messageType);
    assert head.memory[2..] == InitNetworkMessage(maxLength).memory[2..];
    assert forall j :: 2 <= j < maxLength ==> head.memory[j] == head.memory[2..][j - 2];
    assert Holds(head, messageType, []);
    InsertAllHolds(head, messageType, [], words);
    assert [] + words == words;
  }
}
