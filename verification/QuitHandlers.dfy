// The registry of quit channels (node/bridge/quit_handlers.go): one open
// channel per topic, with maps in both directions.
module QuitHandlers {
  import opened Options

  class QuitChannel {
    var closed: bool

    constructor ()
      ensures !closed
    {
      closed := false;
    }

    // Closing a closed channel panics.
    method Close()
      requires !closed
      modifies this
      ensures closed
    {
      closed := true;
    }
  }

  class QuitHandlers {
    var handlers: map<string, QuitChannel>
    var topics: map<QuitChannel, string>
    ghost var created: set<QuitChannel>

    // The two maps are inverse to each other, and of the channels created here
    // exactly the open ones are registered.
    ghost predicate Valid()
      reads this, created
    {
      && (forall t :: t in handlers ==> handlers[t] in topics && topics[handlers[t]] == t)
      && (forall c :: c in topics ==> c in created && topics[c] in handlers && handlers[topics[c]] == c)
      && (forall c :: c in created ==> (c in topics <==> !c.closed))
    }

    constructor ()
      ensures Valid() && created == {} && handlers == map[]
    {
      handlers, topics, created := map[], map[], {};
    }

    // Registers a new channel; a previous one of the topic is closed, and
    // nothing else is.
    method AddQuitHandler(topic: string) returns (ch: QuitChannel)
      requires Valid()
      modifies this, created
      ensures Valid() && fresh(ch) && created == old(created) + {ch} && !ch.closed
      ensures handlers == old(handlers)[topic := ch]
      ensures forall c :: c in old(created) ==>
        c.closed == (old(c.closed) || (topic in old(handlers) && c == old(handlers)[topic]))
    {
      ch := new QuitChannel();
      if topic in handlers {
        var oldch := handlers[topic];
        oldch.Close();
        topics := topics - {oldch};
      }
      handlers := handlers[topic := ch];
      topics := topics[ch := topic];
      created := created + {ch};
    }

    // Removes a channel if it is still registered.  For a channel created here
    // this is a no-op exactly when it is already closed.
    method RemoveQuitHandler(ch: QuitChannel) returns (topic: Option<string>)
      requires Valid()
      modifies this`handlers, this`topics, created
      ensures Valid()
      ensures topic.Some? <==> ch in old(topics)
      ensures ch in created ==> (topic.Some? <==> !old(ch.closed))
      ensures topic.Some? ==> topic.value == old(topics)[ch] && handlers == old(handlers) - {topic.value} && ch.closed
      ensures topic.None? ==> handlers == old(handlers) && topics == old(topics)
      ensures forall c :: c in created ==> c.closed == (old(c.closed) || (topic.Some? && c == ch))
    {
      if ch in topics && topics[ch] in handlers && handlers[topics[ch]] == ch {
        var t := topics[ch];
        ch.Close();
        handlers := handlers - {t};
        topics := topics - {ch};
        return Some(t);
      }
      return None;
    }

    // Cancels the channel of a topic.
    method RemoveTopicHandler(topic: string) returns (removed: bool)
      requires Valid()
      modifies this`handlers, this`topics, created
      ensures Valid()
      ensures removed <==> topic in old(handlers)
      ensures handlers == old(handlers) - {topic}
      ensures forall c :: c in created ==> c.closed == (old(c.closed) || (removed && c == old(handlers)[topic]))
    {
      if topic in handlers {
        var ch := handlers[topic];
        ch.Close();
        handlers := handlers - {topic};
        topics := topics - {ch};
        return true;
      }
      return false;
    }

    // SpreadNewEpoch's deferred removal after HandleNewEpoch cancelled the
    // topic, with or without a newer registration in between, changes nothing.
    method CancelThenDeferred(topic: string, again: bool)
      returns (deferred: Option<string>, ch: QuitChannel, kept: map<string, QuitChannel>)
      requires Valid()
      modifies this, created
      ensures Valid() && deferred == None && ch.closed
      ensures handlers == kept
      ensures again ==> topic in handlers && handlers[topic] != ch
      ensures again ==> handlers[topic] in created && !handlers[topic].closed
      ensures !again ==> topic !in handlers
    {
      ch := AddQuitHandler(topic);
      var cancelled := RemoveTopicHandler(topic);
      if again {
        var newer := AddQuitHandler(topic);
      }
      kept := handlers;
      deferred := RemoveQuitHandler(ch);
    }
  }
}
