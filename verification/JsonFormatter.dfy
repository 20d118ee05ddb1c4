/** The JSON formatter of format/json.go: its callbacks in place, proved against JsonEmitter. */
module JsonFormatters {
  import opened Utilities
  import opened JsonEmitter

  class JsonFormatter {
    const lib: Library
    var message: seq<Token>
    var state: ReaderState
    /** Lives on from message to message. */
    var stack: seq<ReaderState>

    constructor (lib: Library)
      ensures this.lib == lib && Emitted() == Emitter([], Object, [])
    {
      this.lib, message, state, stack := lib, [], Object, [];
    }

    ghost function Emitted(): Emitter
      reads this
    {
      Emitter(message, state, stack)
    }

    method Write(token: Token)
      modifies this`message
      ensures message == old(message) + [token]
    {
      message := message + [token];
    }

    method WriteKey(key: bytes)
      modifies this
      ensures Emitted() == JsonEmitter.WriteKey(old(Emitted()), key)
    {
      while state.InArray()
        invariant CloseArrays(Emitted()) == CloseArrays(old(Emitted()))
        decreases |stack| + if state.InArray() then 1 else 0
      {
        ReadEnd();
      }
      if state.BeyondKey() { Write(Null); }
      if state != Object { Write(Comma); }
      Write(Name(key));
    }

    method ReadKey(data: bytes)
      modifies this
      ensures Emitted() == JsonEmitter.WriteKey(old(Emitted()), data).(state := Value)
    {
      WriteKey(data);
      state := Value;
    }

    method ReadValue(data: bytes, name: bytes)
      modifies this
      ensures Emitted() == Plain(lib, old(Emitted()), data, name)
    {
      var trimmedData := lib.trim(data);
      if |trimmedData| == 0 {
        if !state.InArray() { state := Key; }
        return;
      }
      WriteScalar(trimmedData, name);
    }

    method ReadEscaped(data: bytes, name: bytes)
      modifies this
      ensures Emitted() == Escaped(lib, old(Emitted()), data, name)
    {
      var trimmedData := lib.trim(data);
      if |trimmedData| == 0 {
        if !state.InArray() { state := Key; }
        return;
      }
      WriteScalar(lib.encode(trimmedData), name);
    }

    /** The switch that readValue and readEscaped share. */
    method WriteScalar(text: bytes, name: bytes)
      modifies this
      ensures Emitted() == JsonEmitter.WriteScalar(old(Emitted()), name, false, text)
    {
      if state == Array {
        Write(Scalar(text));
        state := ArrayAppend;
      } else if state == ArrayAppend {
        Write(Comma);
        Write(Scalar(text));
      } else {
        if state != Value { WriteKey(name); }
        Write(Scalar(text));
        state := Key;
      }
    }

    method ReadDate(data: bytes, name: bytes)
      modifies this
      ensures Emitted() == Escaped(lib, old(Emitted()), lib.date(lib.trim(data)), name)
    {
      var formattedDate := lib.date(lib.trim(data));
      ReadEscaped(formattedDate, name);
    }

    method ReadArray(name: bytes)
      modifies this
      ensures Emitted() == OpenArr(old(Emitted()), name)
    {
      OpenBracket(OpenArray, name);
      stack := stack + [state];
      state := Array;
    }

    method ReadObject(name: bytes)
      modifies this
      ensures Emitted() == OpenObj(old(Emitted()), name)
    {
      OpenBracket(OpenObject, name);
      stack := stack + [state];
      state := Object;
    }

    /** The switch that readArray and readObject share. */
    method OpenBracket(bracket: Token, name: bytes)
      modifies this
      ensures forall inside ::
        Emitted().(state := inside, stack := stack + [state]) == Open(old(Emitted()), name, bracket, inside)
    {
      if state == ArrayAppend {
        Write(Comma);
      } else if state != Value && state != Array && state != Object {
        WriteKey(name);
      }
      Write(bracket);
    }

    method ReadEnd()
      modifies this
      ensures Emitted() == End(old(Emitted()))
    {
      var stackSize := |stack|;
      if stackSize > 0 {
        if state.InArray() { Write(CloseArray); } else { Write(CloseObject); }
      }
      if stackSize > 1 {
        state := stack[stackSize - 1];
        stack := stack[..stackSize - 1];
        if state == Array { state := ArrayAppend; }
      } else {
        stack := [];
        state := Key;
      }
    }

    /** One callback of the parser; the composed ones call the simple ones. */
    method Dispatch(call: Call)
      modifies this
      ensures Emitted() == Apply(lib, old(Emitted()), call)
    {
      var formatState := state;
      match call.callback
      case ReadKey(data) => ReadKey(data);
      case ReadValue(data) => ReadValue(data, call.name);
      case ReadEscaped(data) => ReadEscaped(data, call.name);
      case ReadDate(data) => ReadDate(data, call.name);
      case ReadArray => ReadArray(call.name);
      case ReadObject => ReadObject(call.name);
      case ReadEnd => ReadEnd();
      case ReadArrayValue(data) =>
        ReadArray(call.name);
        ReadValue(data, call.name);
      case ReadArrayEscaped(data) =>
        ReadArray(call.name);
        ReadEscaped(data, call.name);
      case ReadValueEnd(data) =>
        ReadValue(data, call.name);
        state := formatState;
        ReadEnd();
      case ReadEscapedEnd(data) =>
        ReadEscaped(data, call.name);
        state := formatState;
        ReadEnd();
      case ReadDateEnd(data) =>
        ReadDate(data, call.name);
        state := formatState;
        ReadEnd();
    }

    /** Format, for the calls that the parser makes and the bytes it leaves over. */
    method Format(calls: seq<Call>, remains: Option<bytes>, name: bytes) returns (text: seq<Token>)
      modifies this
      ensures Emitted() == Formatted(lib, old(stack), calls, remains, name) && text == message
    {
      message, state := [OpenObject], Object;
      for i := 0 to |calls|
        invariant Run(lib, Emitted(), calls[i..]) == Run(lib, Begin(old(stack)), calls)
      {
        assert calls[i..][1..] == calls[i + 1..];
        Dispatch(calls[i]);
      }
      if remains.Some? { ReadEscaped(remains.value, name); }
      if |message| > 1 {
        ghost var all := Emitted();
        while state.InArray() || state.Object?
          invariant CloseAll(Emitted()) == CloseAll(all)
          decreases |stack| + if state.InArray() || state.Object? then 1 else 0
        {
          ReadEnd();
        }
      }
      Write(CloseObject);
      text := message;
    }
  }
}
