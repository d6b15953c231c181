/** The `UserDefaultState` property wrapper: a value kept under one key of a
    `UserDefaults` store, read with a default, written (or removed, for a
    nil optional) in place, and published to subscribers on every write. */
module Preferences {
  import opened Wrappers

  /** What a store holds under a key: an object of the wrapper's `Value`
      type, or an object of another type, which `as? Value` rejects. */
  datatype Entry<V> = Typed(value: V) | Untyped

  type Store<V> = map<string, Entry<V>>

  /** The getter: the stored object when there is one of type `Value`,
      otherwise the default. */
  function Read<V>(store: Store<V>, key: string, defaultValue: V): (v: V)
    ensures key in store && store[key].Typed? ==> v == store[key].value
    ensures key !in store || store[key].Untyped? ==> v == defaultValue
  {
    if key in store && store[key].Typed? then store[key].value else defaultValue
  }

  /** The setter's effect on the store: a nil value removes the key, any
      other value is stored under it. */
  function Write<V>(store: Store<V>, key: string, newValue: V, isNil: V -> bool): (s: Store<V>)
    ensures isNil(newValue) ==> key !in s
    ensures !isNil(newValue) ==> key in s && s[key] == Typed(newValue)
    ensures forall k :: k != key ==> (k in s <==> k in store)
    ensures forall k :: k in s && k != key ==> s[k] == store[k]
  {
    if isNil(newValue) then store - {key} else store[key := Typed(newValue)]
  }

  /** Writing a value and reading it back gives the value, or the default
      when the value was nil. */
  lemma ReadAfterWrite<V>(store: Store<V>, key: string, newValue: V, defaultValue: V, isNil: V -> bool)
    ensures Read(Write(store, key, newValue, isNil), key, defaultValue)
         == if isNil(newValue) then defaultValue else newValue
  {
  }

  /** A write leaves what every other key reads unchanged. */
  lemma WriteOtherKey<V>(store: Store<V>, key: string, other: string, newValue: V, defaultValue: V, isNil: V -> bool)
    requires other != key
    ensures Read(Write(store, key, newValue, isNil), other, defaultValue) == Read(store, other, defaultValue)
  {
  }

  /** The second of two writes to the same key decides the store, so
      writing the same value twice is writing it once. */
  lemma WriteTwice<V>(store: Store<V>, key: string, first: V, second: V, isNil: V -> bool)
    ensures Write(Write(store, key, first, isNil), key, second, isNil) == Write(store, key, second, isNil)
  {
    var a, b := Write(Write(store, key, first, isNil), key, second, isNil), Write(store, key, second, isNil);
    assert a.Keys == b.Keys;
  }

  /** Writes to different keys commute. */
  lemma WritesCommute<V>(store: Store<V>, key: string, other: string, x: V, y: V, isNil: V -> bool)
    requires key != other
    ensures Write(Write(store, key, x, isNil), other, y, isNil) == Write(Write(store, other, y, isNil), key, x, isNil)
  {
    var a, b := Write(Write(store, key, x, isNil), other, y, isNil), Write(Write(store, other, y, isNil), key, x, isNil);
    assert a.Keys == b.Keys;
  }

  /** `UserDefaults`: a shared, mutable key-value store. */
  class UserDefaults<V> {
    var store: Store<V>

    constructor ()
      ensures store == map[]
    {
      store := map[];
    }

    /** `set(_:forKey:)`. */
    method Set(value: V, key: string)
      modifies this
      ensures store == old(store)[key := Typed(value)]
    {
      store := store[key := Typed(value)];
    }

    /** `removeObject(forKey:)`. */
    method RemoveObject(key: string)
      modifies this
      ensures store == old(store) - {key}
    {
      store := store - {key};
    }

    /** `object(forKey:)`. */
    function Object(key: string): (o: Option<Entry<V>>)
      reads this
      ensures o.Some? <==> key in store
      ensures o.Some? ==> o.value == store[key]
    {
      if key in store then Some(store[key]) else None
    }
  }

  class UserDefaultState<V> {
    const key: string
    const defaultValue: V
    var container: UserDefaults<V>
    /** `(newValue as? AnyOptional)?.isNil`: false for every value of a
        non-optional type, true exactly for nil of an optional one. */
    const isNil: V -> bool
    /** Every value sent on the publisher, in order. */
    var published: seq<V>

    /** The memberwise initialiser. */
    constructor (key: string, defaultValue: V, container: UserDefaults<V>, isNil: V -> bool)
      ensures this.key == key && this.defaultValue == defaultValue
      ensures this.container == container && this.isNil == isNil
      ensures published == []
    {
      this.key := key;
      this.defaultValue := defaultValue;
      this.container := container;
      this.isNil := isNil;
      published := [];
    }

    /** `init(key:defaultValue:_:)` for an optional `Value`: the default is
        the nil literal unless one is given. */
    constructor NilLiteral(key: string, container: UserDefaults<V>, isNil: V -> bool, nilValue: V,
                           defaultValue: Option<V> := None)
      requires isNil(nilValue)
      ensures this.key == key && this.container == container && this.isNil == isNil
      ensures this.defaultValue == defaultValue.GetOr(nilValue)
      ensures defaultValue.None? ==> this.isNil(this.defaultValue)
      ensures published == []
    {
      this.key := key;
      this.defaultValue := defaultValue.GetOr(nilValue);
      this.container := container;
      this.isNil := isNil;
      published := [];
    }

    /** The getter of `wrappedValue`. */
    function WrappedValue(): (v: V)
      reads this, container
      ensures v == Read(container.store, key, defaultValue)
    {
      match container.Object(key)
      case Some(Typed(value)) => value
      case _ => defaultValue
    }

    /** The setter of `wrappedValue`: remove the key for nil, store the
        value otherwise, then publish the new value. Nothing but the
        container's entry under `key` and the published log changes. */
    method SetWrappedValue(newValue: V)
      modifies this, container
      ensures container == old(container)
      ensures container.store == Write(old(container.store), key, newValue, isNil)
      ensures published == old(published) + [newValue]
      ensures WrappedValue() == if isNil(newValue) then defaultValue else newValue
    {
      if isNil(newValue) {
        container.RemoveObject(key);
      } else {
        container.Set(newValue, key);
      }
      published := published + [newValue];
      ReadAfterWrite(old(container.store), key, newValue, defaultValue, isNil);
    }

    /** `projectedValue`: the values a subscriber attached at the start has
        received. */
    function ProjectedValue(): (values: seq<V>)
      reads this
      ensures values == published
    {
      published
    }
  }

  /** Two wrappers over one container share it: a write through one is
      seen by the other under the same key and leaves the other's
      different key alone. */
  method SharedContainer<V>(a: UserDefaultState<V>, b: UserDefaultState<V>, newValue: V)
    requires a != b && a.container == b.container
    modifies a, a.container
    ensures b.WrappedValue()
         == if b.key == a.key then Read(Write(old(b.container.store), a.key, newValue, a.isNil), b.key, b.defaultValue)
            else old(b.WrappedValue())
    ensures b.published == old(b.published)
  {
    a.SetWrappedValue(newValue);
    if b.key != a.key {
      WriteOtherKey(old(a.container.store), a.key, b.key, newValue, b.defaultValue, a.isNil);
    }
  }
}
