/** What a lookup in a table that is a plain JavaScript object finds besides the table's own entries. */
module PlainObject {
  /** The names every plain object inherits.  What stands under each is truthy: an object or a function. */
  const INHERITED: set<string> := {
    "constructor", "toString", "toLocaleString", "valueOf", "hasOwnProperty", "isPrototypeOf", "propertyIsEnumerable",
    "__proto__", "__defineGetter__", "__defineSetter__", "__lookupGetter__", "__lookupSetter__"}
}
