/** The optional value the two services keep in `last_predicted_label` and
    `last_added_text`: Python's `None` or a label. */
module Wrappers {

  datatype Option<+T> = None | Some(value: T)
}
