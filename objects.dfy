/** Plain JavaScript objects (`{}` and object literals) used as dictionaries keyed by strings. */
module JsObjects {

  /** The properties every plain object inherits from `Object.prototype`. Looking one of these names up
      in a record that has no own property of that name finds a function, or for `__proto__` the
      prototype object itself: a truthy value that is neither `undefined` nor a record of the
      dictionary's own kind. */
  const InheritedKeys: set<string> := {
    "constructor", "hasOwnProperty", "isPrototypeOf", "propertyIsEnumerable", "toString",
    "toLocaleString", "valueOf", "__proto__", "__defineGetter__", "__defineSetter__",
    "__lookupGetter__", "__lookupSetter__"}

  /** A lookup of `k` in a plain record without an own property `k` finds an inherited value. */
  predicate IsInheritedKey(k: string) {
    k in InheritedKeys
  }
}
