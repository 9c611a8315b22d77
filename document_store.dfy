/** The document catalogue and the chat history, each kept in its own JSON
    file. A file is modelled by the value it holds; `None` stands for a file
    that does not exist or cannot be read, which loads as empty. A write that
    fails (the file cannot be opened) leaves the file as it was. */
module DocumentStorage {
  import opened Common

  /** At most this many chat messages are kept. */
  const ChatHistoryCap: nat := 1000

  /** The catalogue after upserting `info` under `name`, stamped with the
      time it was saved. */
  function Upsert(documents: map<string, Metadata>, name: string, info: Metadata, now: string): map<string, Metadata>
  {
    documents[name := info["added_at" := Str(now)]]
  }

  /** The history after appending a message: the newest `ChatHistoryCap`
      entries. */
  function Appended(history: seq<Metadata>, message: Metadata, now: string): seq<Metadata>
  {
    var grown := history + [message["timestamp" := Str(now)]];
    if |grown| > ChatHistoryCap then grown[|grown| - ChatHistoryCap..] else grown
  }

  /** Where Python's slice `h[start:]` begins, for a list of length `n`. */
  function SliceStart(n: nat, start: int): (r: nat)
    ensures r <= n
  {
    if start < 0 then (if n + start < 0 then 0 else n + start)
    else if start > n then n
    else start
  }

  /** `history[-limit:] if history else []`. */
  function Recent(history: seq<Metadata>, limit: int): seq<Metadata>
  {
    if history == [] then [] else history[SliceStart(|history|, -limit)..]
  }

  class DocumentStore {
    var documentsFile: Option<map<string, Metadata>>
    var chatHistoryFile: Option<seq<Metadata>>

    constructor(documentsFile: Option<map<string, Metadata>>, chatHistoryFile: Option<seq<Metadata>>)
      ensures this.documentsFile == documentsFile && this.chatHistoryFile == chatHistoryFile
    {
      this.documentsFile := documentsFile;
      this.chatHistoryFile := chatHistoryFile;
    }

    /** `load_documents`: the catalogue, or `{}` when the file is missing or
        unreadable. */
    method LoadDocuments() returns (documents: map<string, Metadata>)
      ensures documentsFile.Some? ==> documents == documentsFile.value
      ensures documentsFile.None? ==> documents == map[]
    {
      if documentsFile.Some? {
        return documentsFile.value;
      }
      return map[];
    }

    /** `load_chat_history`: the history, or `[]` when the file is missing or
        unreadable. */
    method LoadChatHistory() returns (history: seq<Metadata>)
      ensures chatHistoryFile.Some? ==> history == chatHistoryFile.value
      ensures chatHistoryFile.None? ==> history == []
    {
      if chatHistoryFile.Some? {
        return chatHistoryFile.value;
      }
      return [];
    }

    /** `save_document_metadata`: stamps `info` with `added_at` and stores it
        under its `name`, replacing an earlier entry of that name. Without a
        string `name`, or when the file cannot be written, nothing is saved.
        `written` tells whether the file could be opened for writing. */
    method SaveDocumentMetadata(info: Metadata, now: string, written: bool) returns (ok: bool)
      modifies this
      ensures ok <==> "name" in info && info["name"].Str? && written
      ensures chatHistoryFile == old(chatHistoryFile)
      ensures documentsFile == if ok
        then Some(Upsert(if old(documentsFile).Some? then old(documentsFile).value else map[], info["name"].s, info, now))
        else old(documentsFile)
    {
      var documents := LoadDocuments();
      var stamped := info["added_at" := Str(now)];
      if "name" !in info || !info["name"].Str? {
        return false;
      }
      documents := documents[info["name"].s := stamped];
      if !written {
        return false;
      }
      documentsFile := Some(documents);
      return true;
    }

    /** `remove_document`: drops the entry of `name` and reports whether
        there was one to drop. */
    method RemoveDocument(name: string, written: bool) returns (ok: bool)
      modifies this
      ensures ok <==> old(documentsFile).Some? && name in old(documentsFile).value && written
      ensures chatHistoryFile == old(chatHistoryFile)
      ensures documentsFile == if ok then Some(old(documentsFile).value - {name}) else old(documentsFile)
    {
      var documents := LoadDocuments();
      if name in documents {
        if !written {
          return false;
        }
        documentsFile := Some(documents - {name});
        return true;
      }
      return false;
    }

    /** `save_chat_message`: stamps the message with `timestamp`, appends it
        and keeps the newest `ChatHistoryCap` messages. */
    method SaveChatMessage(message: Metadata, now: string, written: bool) returns (ok: bool)
      modifies this
      ensures ok == written
      ensures documentsFile == old(documentsFile)
      ensures chatHistoryFile == if ok
        then Some(Appended(if old(chatHistoryFile).Some? then old(chatHistoryFile).value else [], message, now))
        else old(chatHistoryFile)
    {
      var history := LoadChatHistory();
      var stamped := message["timestamp" := Str(now)];
      history := history + [stamped];
      if |history| > ChatHistoryCap {
        history := history[|history| - ChatHistoryCap..];
      }
      if !written {
        return false;
      }
      chatHistoryFile := Some(history);
      return true;
    }

    /** `clear_chat_history`. */
    method ClearChatHistory(written: bool) returns (ok: bool)
      modifies this
      ensures ok == written
      ensures documentsFile == old(documentsFile)
      ensures chatHistoryFile == if ok then Some([]) else old(chatHistoryFile)
    {
      if !written {
        return false;
      }
      chatHistoryFile := Some([]);
      return true;
    }

    /** `get_recent_chat_history`: the newest `limit` messages in order. */
    method GetRecentChatHistory(limit: int := 10) returns (recent: seq<Metadata>)
      ensures recent == Recent(if chatHistoryFile.Some? then chatHistoryFile.value else [], limit)
    {
      var history := LoadChatHistory();
      if history == [] {
        return [];
      }
      recent := history[SliceStart(|history|, -limit)..];
    }
  }

  /** Saving a document's metadata stores the stamped dict under its name,
      keeps every other entry, and adds at most one entry. */
  lemma UpsertKeepsOthers(documents: map<string, Metadata>, name: string, info: Metadata, now: string)
    ensures var after := Upsert(documents, name, info, now);
      name in after && after[name] == info["added_at" := Str(now)] && after[name]["added_at"] == Str(now) &&
      (forall other :: other != name ==> (other in after <==> other in documents)) &&
      (forall other :: other != name && other in documents ==> after[other] == documents[other]) &&
      |after.Keys| <= |documents.Keys| + 1 &&
      (name in documents ==> |after.Keys| == |documents.Keys|)
  {
    var after := Upsert(documents, name, info, now);
    if name in documents {
      assert after.Keys == documents.Keys;
    } else {
      assert after.Keys == documents.Keys + {name};
    }
  }

  /** Appending keeps the newest messages, in order, ending with the new
      stamped one; the history never grows beyond the cap. */
  lemma AppendedKeepsNewest(history: seq<Metadata>, message: Metadata, now: string)
    ensures var after := Appended(history, message, now);
      var grown := history + [message["timestamp" := Str(now)]];
      |after| == Min(|history| + 1, ChatHistoryCap) &&
      after == grown[|grown| - |after|..] &&
      after[|after| - 1] == message["timestamp" := Str(now)] &&
      after[|after| - 1]["timestamp"] == Str(now)
  {
  }

  /** A history of at most `ChatHistoryCap` messages stays so after any
      number of appends, and an append to a short history drops nothing. */
  lemma AppendedBounded(history: seq<Metadata>, message: Metadata, now: string)
    ensures |Appended(history, message, now)| <= ChatHistoryCap
    ensures |history| < ChatHistoryCap ==> Appended(history, message, now)[..|history|] == history
  {
  }

  /** `get_recent_chat_history`: a positive limit gives the newest
      `min(limit, len)` messages, a zero limit the whole history (`[-0:]`
      starts at 0), a negative limit drops the `-limit` oldest. */
  lemma RecentIsSuffix(history: seq<Metadata>, limit: int)
    ensures var r := Recent(history, limit);
      r == history[|history| - |r|..] &&
      (limit > 0 ==> |r| == Min(limit, |history|)) &&
      (limit == 0 ==> r == history) &&
      (limit < 0 ==> |r| == |history| - Min(-limit, |history|))
  {
  }
}
