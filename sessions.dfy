/** The cookie session as the routes see it: a map from keys to values,
    read with `get`, changed with `set` and `unset`, then committed. Only
    numbers are stored in it (`user`). */
module Sessions {
  import opened Common

  const UserKey := "user"

  class Session {
    var data: map<string, int>

    constructor (data: map<string, int>)
      ensures this.data == data
    {
      this.data := data;
    }

    /** `session.get(key)`: `None` when the key is not set. */
    function Get(key: string): (v: Option<int>)
      reads this
      ensures v.Some? <==> key in data
      ensures v.Some? ==> v.value == data[key]
    {
      if key in data then Some(data[key]) else None
    }

    /** `session.set(key, value)`. */
    method Set(key: string, value: int)
      modifies this
      ensures data == old(data)[key := value]
    {
      data := data[key := value];
    }

    /** `session.unset(key)`. */
    method Unset(key: string)
      modifies this
      ensures data == old(data) - {key}
    {
      data := data - {key};
    }
  }
}
